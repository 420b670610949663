/** The exact conditions of PageOverrun and PageQuirks fail in states that runs from boot reach:
    two short runs, each step but the last within its guard. */
module PageHarm {
  import opened Mmu
  import opened PageSpec
  import opened PageInvariant
  import opened PageSteps
  import opened PageMapping
  import opened PageRegion
  import opened PageOverwrite
  import opened PageCopy
  import opened PageTeardown
  import opened PageOverrun
  import opened PageExact
  import opened PageQuirks
  import opened PageRuns

  /** The j-th managed page. */
  function Nth(j: int): int { FIRST_MANAGED + j }

  /** An early state of a run from boot state s0: the pages from the k-th on are free, in order;
      low memory is as it was, but for the slot of the video memory. */
  ghost predicate Early(s0: PM, s: PM, k: nat, ds: set<int>, ts: set<int>) {
    && Inv(s) && s.width == WIDTH && s.kern == s0.kern && s.dirs == ds && s.tables.Keys == ts
    && k <= 16 && |s.free| == NPAGES - Nth(k) && (forall j :: 0 <= j < |s.free| ==> s.free[j] == Nth(k) + j)
    && (forall c :: c in ds || c in ts ==> c < Nth(k))
    && RefAt(s.refs, 0) == 1 && LowSame(s0, s)
  }

  ghost predicate LowSame(s0: PM, s: PM) {
    forall c, i :: c < FIRST_MANAGED && (c != s0.kern || i != 0) ==> At(s.mem, c, i) == At(s0.mem, c, i)
  }

  /** The order of the free list makes every clearing safe. */
  lemma EarlyClear(s0: PM, s: PM, k: nat, ds: set<int>, ts: set<int>)
    requires Early(s0, s, k, ds, ts)
    ensures s.free != [] && s.free[0] == Nth(k) && Clear(s)
    ensures |s.free| > 2 && s.free[1] == Nth(k) + 1 && Clear(Pop(s))
  {
    hide FreeOk, CountsOk, Tree;
  }

  // ---- page_init

  /** After page_init one page is taken, for the table of the video memory. */
  lemma EarlyInit(s0: PM, kt: int)
    requires Booted(s0, kt) && s0.width == WIDTH
    ensures Early(s0, PageInit(s0), 1, {}, {Nth(0)})
  {
    hide InvX, BootMap, CanBootRegion;
    PageInitEstablishes(s0, kt, 0);
    BootedInv(s0, kt);
    BootedRegion(s0, kt);
    BootedSlot(s0, kt, VRAM_FRAME / ENTRIES);
    BootMapRest(s0, VRAM_FRAME, VRAM_FRAME, VRAM_PAGES, PTE_W + PTE_P);
    assert s0.free[0] == Nth(0);
  }

  // ---- pcb_create

  lemma EarlyDir(s0: PM, s: PM, k: nat, ds: set<int>, ts: set<int>)
    requires Early(s0, s, k, ds, ts) && k < 16
    ensures Early(s0, NewDir(s), k + 1, ds + {Nth(k)}, ts)
    ensures DirAdded(s, NewDir(s), Nth(k))
    ensures forall f :: f != Nth(k) ==> RefAt(NewDir(s).refs, f) == RefAt(s.refs, f)
  {
    hide InvX, Copied, Zeroed, Clear;
    EarlyClear(s0, s, k, ds, ts);
    NewDirKeeps(s, {});
    NewDirAdds(s, {});
    CopiedFrame(Zeroed(s.mem, s.free[0], s.width), s.free[0], s.kern, s.width);
    ZeroedFrame(s.mem, s.free[0], s.width);
    assert LowSame(s0, NewDir(s)) by {
      forall c, i | c < FIRST_MANAGED
        ensures At(NewDir(s).mem, c, i) == At(s.mem, c, i)
      {
        assert PageAt(NewDir(s).mem, c) == PageAt(s.mem, c);
      }
    }
  }

  // ---- mm_alloc of one page

  /** The first page behind a directory slot: a leaf, then its table. */
  lemma EarlyFirst(s0: PM, s: PM, k: nat, ds: set<int>, ts: set<int>, d: int, v: int)
    requires Early(s0, s, k, ds, ts) && k + 1 < 16 && d in ds && 0 <= v < VPNS && !Present(At(s.mem, d, v / ENTRIES))
    ensures CanMapNew(s, d, v)
    ensures var s1, t := MapNew(s, d, v), Nth(k) + 1;
      && Early(s0, s1, k + 2, ds, ts + {t})
      && TableOf(s1, d, v) == t && Present(At(s1.mem, d, v / ENTRIES))
      && (forall j :: At(s1.mem, t, j) == if j == v % ENTRIES then Pte(Nth(k), PTE_P + PTE_W + PTE_U) else 0)
      && (forall c, j :: Container(s, c) && (c != d || j != v / ENTRIES) ==> At(s1.mem, c, j) == At(s.mem, c, j))
      && RefAt(s1.refs, Nth(k)) == 1
  {
    hide CountsOk, SlotsOk, OwnersOk, SharedOk, LeavesOk, Pte, Clear;
    EarlyClear(s0, s, k, ds, ts);
    EarlyLive(s, d);
    assert CanMapNew(s, d, v);
    MapNewKeeps(s, d, v);
    MapNewRefs(s, d, v, Nth(k));
    FirstWords(s, d, v);
    var s1 := MapNew(s, d, v);
    assert LowSame(s0, s1);
  }

  lemma EarlyLive(s: PM, d: int)
    requires Inv(s) && d in s.dirs
    ensures Managed(d) && d != s.kern && 0 <= d < NPAGES && d !in s.free && d !in s.tables
  {
    DirLive(s, d);
  }

  lemma FirstWords(s: PM, d: int, v: int)
    requires Inv(s) && CanMapNew(s, d, v) && !Present(At(s.mem, d, v / ENTRIES)) && |s.free| > 1
    ensures var s1, p, t := MapNew(s, d, v), s.free[0], s.free[1];
      && s1.free == s.free[2..] && s1.dirs == s.dirs && s1.kern == s.kern && s1.width == s.width
      && s1.tables.Keys == s.tables.Keys + {t} && RefAt(s1.refs, 0) == RefAt(s.refs, 0)
      && TableOf(s1, d, v) == t && Present(At(s1.mem, d, v / ENTRIES))
      && (forall j :: At(s1.mem, t, j) == if j == v % ENTRIES then Pte(p, PTE_P + PTE_W + PTE_U) else 0)
      && (forall c, j :: Container(s, c) && (c != d || j != v / ENTRIES) ==> At(s1.mem, c, j) == At(s.mem, c, j))
      && (forall c, j :: c < FIRST_MANAGED ==> At(s1.mem, c, j) == At(s.mem, c, j))
  {
    hide CountsOk, SlotsOk, OwnersOk, SharedOk, LeavesOk, Pte, Zeroed;
    var u := Pop(s);
    MapNewReady(s, d, v);
    EarlyLive(s, d);
    assert Managed(s.free[0]) && Managed(s.free[1]);
    AddTableAdds(u, {s.free[0]}, d, v / ENTRIES, PTE_P + PTE_W + PTE_U);
    ZeroedFrame(u.mem, u.free[0], u.width);
    PteFields(s.free[1], PTE_P + PTE_W + PTE_U);
    assert WithP(PTE_W + PTE_P + PTE_U) == PTE_P + PTE_W + PTE_U;
    var w := Walk(u, d, v);
    assert w == AddTable(u, d, v / ENTRIES, PTE_P + PTE_W + PTE_U);
    assert forall j :: At(w.mem, s.free[1], j) == 0;
    assert forall c :: c < FIRST_MANAGED ==> PageAt(w.mem, c) == PageAt(s.mem, c);
    assert |w.mem| == NPAGES && 0 <= s.free[1] < NPAGES && 0 <= v % ENTRIES < ENTRIES;
    assert MapNew(s, d, v) == w.(mem := Put(w.mem, s.free[1], v % ENTRIES, Pte(s.free[0], PTE_P + PTE_W + PTE_U)), refs := AddRef(w.refs, s.free[0], 1));
    ContainersElsewhere(s);
    forall c, j
      ensures At(MapNew(s, d, v).mem, c, j) ==
              if c == s.free[1] && j == v % ENTRIES then Pte(s.free[0], PTE_P + PTE_W + PTE_U) else At(w.mem, c, j)
    {
      PutAt(w.mem, s.free[1], v % ENTRIES, Pte(s.free[0], PTE_P + PTE_W + PTE_U), c, j);
    }
    forall c, j | c < FIRST_MANAGED
      ensures At(w.mem, c, j) == At(s.mem, c, j)
    {
      assert PageAt(w.mem, c) == PageAt(s.mem, c);
    }
  }

  lemma PutAt(m: seq<Page>, c: int, i: int, w: Word, c1: int, i1: int)
    requires 0 <= c < |m| && 0 <= i < ENTRIES
    ensures At(Put(m, c, i, w), c1, i1) == if c1 == c && i1 == i then w else At(m, c1, i1)
  {
  }

  lemma ContainersElsewhere(s: PM)
    requires Inv(s)
    ensures forall c :: Container(s, c) ==> c !in s.free
  {
    forall c | Container(s, c) ensures c !in s.free { ContainerIsLive(s, {}, {}, c); }
  }

  /** A further page behind the same slot, at an address that is still free. */
  lemma EarlyNext(s0: PM, s: PM, k: nat, ds: set<int>, ts: set<int>, d: int, v: int)
    requires Early(s0, s, k, ds, ts) && k < 16 && d in ds && 0 <= v < VPNS && Present(At(s.mem, d, v / ENTRIES))
    requires TableOf(s, d, v) in ts && At(s.mem, TableOf(s, d, v), v % ENTRIES) == 0
    ensures CanMapNew(s, d, v)
    ensures var s1, t := MapNew(s, d, v), TableOf(s, d, v);
      && Early(s0, s1, k + 1, ds, ts) && At(s1.mem, t, v % ENTRIES) == Pte(Nth(k), PTE_P + PTE_W + PTE_U)
      && (forall c, j :: c != t || j != v % ENTRIES ==> At(s1.mem, c, j) == At(s.mem, c, j))
      && RefAt(s1.refs, Nth(k)) == 1
  {
    hide CountsOk, SlotsOk, OwnersOk, SharedOk, LeavesOk, Pte, Clear;
    EarlyClear(s0, s, k, ds, ts);
    TableLive(s, TableOf(s, d, v));
    MapNewKeeps(s, d, v);
    MapNewRefs(s, d, v, Nth(k));
    assert WithP(PTE_W + PTE_P + PTE_U) == PTE_P + PTE_W + PTE_U;
    var s1, t, p := MapNew(s, d, v), TableOf(s, d, v), s.free[0];
    assert s1 == Pop(s).(mem := Put(s.mem, t, v % ENTRIES, Pte(p, PTE_P + PTE_W + PTE_U)), refs := AddRef(s.refs, p, 1));
    assert LowSame(s0, s1);
  }

  /** A page at an address that has one already: the old page, if this was its only use, is
      now the first on the free list. */
  lemma EarlyOver(s0: PM, s: PM, k: nat, ds: set<int>, ts: set<int>, d: int, v: int, q: int)
    requires Early(s0, s, k, ds, ts) && d in ds && 0 <= v < VPNS && Present(At(s.mem, d, v / ENTRIES))
    requires TableOf(s, d, v) in ts && At(s.mem, TableOf(s, d, v), v % ENTRIES) == Pte(q, PTE_P + PTE_W + PTE_U)
    requires Managed(q) && q < Nth(k) && RefAt(s.refs, q) == 1
    ensures CanMapNew(s, d, v)
    ensures var s1 := MapNew(s, d, v);
      && Inv(s1) && s1.free == [q] + s.free[1..] && s1.dirs == ds && s1.kern == s.kern && s1.width == s.width
      && LowSame(s0, s1)
  {
    hide CountsOk, SlotsOk, OwnersOk, SharedOk, LeavesOk, Pte, Clear;
    EarlyClear(s0, s, k, ds, ts);
    TableLive(s, TableOf(s, d, v));
    PteFields(q, PTE_P + PTE_W + PTE_U);
    MapNewKeeps(s, d, v);
    var t, p := TableOf(s, d, v), s.free[0];
    var u := Pop(s);
    var r := Remove(u, d, v);
    assert r == u.(mem := Put(u.mem, t, v % ENTRIES, 0), refs := AddRef(u.refs, q, -1), free := [q] + u.free);
    assert MapNew(s, d, v) == r.(mem := Put(r.mem, t, v % ENTRIES, Pte(p, WithP(PTE_W + PTE_P + PTE_U))), refs := AddRef(r.refs, p, 1));
    assert LowSame(s0, MapNew(s, d, v));
  }

  // ---- the two runs

  /** A page number of the slot behind the one with the video memory. */
  const U := 1024

  lemma KernelSlotFree(s0: PM, s: PM, kt: int, k: nat, ds: set<int>, ts: set<int>, d: int)
    requires Booted(s0, kt) && Early(s0, s, k, ds, ts) && IsDir(s, d)
    ensures !SharedSlot(s, 1)
  {
    hide Inv, KernelSlot;
    BootedSlot(s0, kt, 1);
    assert At(s.mem, s0.kern, 1) == At(s0.mem, s0.kern, 1) by { assert LowSame(s0, s); EarlyKern(s0, s, k, ds, ts); }
  }

  lemma EarlyKern(s0: PM, s: PM, k: nat, ds: set<int>, ts: set<int>)
    requires Early(s0, s, k, ds, ts)
    ensures 0 <= s.kern < FIRST_MANAGED && s.kern == s0.kern
  {
  }

  /** mm_alloc of one page, as an operation of a run. */
  lemma OnePageAlloc(s: PM, d: int, v: int)
    requires 0 <= v < VPNS - 2
    ensures Apply(s, OpMmAlloc(d, v * PGSIZE, PGSIZE)) == MapNew(s, d, v)
    ensures Inv(s) && CanMapNew(s, d, v) ==> Guard(s, OpMmAlloc(d, v * PGSIZE, PGSIZE))
  {
    hide Inv, MapNew, CanMapNew, Mappable, TableSafe;
    assert (v * PGSIZE + PGSIZE) % TWO_32 == (v + 1) * PGSIZE;
    assert PageDown(v * PGSIZE) == v && PageUp((v + 1) * PGSIZE) == v + 1;
    assert MmAlloc(s, d, v, v + 1) == MmAlloc(MapNew(s, d, v), d, v + 1, v + 1);
    assert SafeMmAlloc(MapNew(s, d, v), d, v + 1, v + 1);
    if Inv(s) && CanMapNew(s, d, v) {
      ClearMappable(s, d, v);
    }
  }

  /** A process with one page. */
  lemma FirstProcess(s0: PM, kt: int)
    requires Booted(s0, kt) && s0.width == WIDTH
    ensures var s1 := NewDir(PageInit(s0));
      var s2 := MapNew(s1, Nth(1), U);
      && IsRun([PageInit(s0), s1, s2], [OpNewDir, OpMmAlloc(Nth(1), U * PGSIZE, PGSIZE)])
      && Early(s0, s2, 4, {Nth(1)}, {Nth(0), Nth(3)})
      && TableOf(s2, Nth(1), U) == Nth(3) && Present(At(s2.mem, Nth(1), 1))
      && (forall j :: j != 0 ==> At(s2.mem, Nth(3), j) == 0)
  {
    hide InvX, PageInit, NewDir, MapNew, Booted, Pte, Clear, LowSame, MmAlloc, SafeMmAlloc, CanMapNew;
    var a := PageInit(s0);
    EarlyInit(s0, kt);
    EarlyClear(s0, a, 1, {}, {Nth(0)});
    EarlyDir(s0, a, 1, {}, {Nth(0)});
    var s1 := NewDir(a);
    assert {} + {Nth(1)} == {Nth(1)} && {Nth(0)} + {Nth(3)} == {Nth(0), Nth(3)};
    KernelSlotFree(s0, s1, kt, 2, {Nth(1)}, {Nth(0)}, Nth(1));
    SonSlot(a, s1, Nth(1));
    EarlyFirst(s0, s1, 2, {Nth(1)}, {Nth(0)}, Nth(1), U);
    OnePageAlloc(s1, Nth(1), U);
  }

  /** A process with one page; then page_remove at the address behind it, which has none.  Page
      0 is put on the free list, and the invariant is gone. */
  lemma RemoveFromBoot(s0: PM, kt: int)
    requires Booted(s0, kt) && s0.width == WIDTH
    ensures var s1 := NewDir(PageInit(s0));
      var s2 := MapNew(s1, Nth(1), U);
      && IsRun([PageInit(s0), s1, s2], [OpNewDir, OpMmAlloc(Nth(1), U * PGSIZE, PGSIZE)])
      && TableThere(s2, Nth(1), U + 1) && Translate(s2, Nth(1), U + 1) == Unmapped
      && 0 in Remove(s2, Nth(1), U + 1).free && !Inv(Remove(s2, Nth(1), U + 1))
  {
    hide InvX, PageInit, NewDir, MapNew, Booted, Remove, LowSame, IsRun;
    FirstProcess(s0, kt);
    var s2 := MapNew(NewDir(PageInit(s0)), Nth(1), U);
    assert At(s2.mem, Nth(3), 1) == 0;
    RemoveFreesLow(s2, Nth(1), U + 1);
  }

  /** Two processes, and a page of the first mapped again: the old page, right before the second
      directory, is free.  Making a third directory on it overwrites the second. */
  lemma DirFromBoot(s0: PM, kt: int)
    requires Booted(s0, kt) && s0.width == WIDTH && s0.kern + WIDTH <= FIRST_MANAGED
    requires At(s0.mem, s0.kern + 1, LINEAR_BASE) != At(s0.mem, s0.kern, LINEAR_BASE)
    ensures var s1 := NewDir(PageInit(s0));
      var s2 := MapNew(s1, Nth(1), U);
      var s3 := MapNew(s2, Nth(1), U + 1);
      var s4 := NewDir(s3);
      var s5 := MapNew(s4, Nth(1), U + 1);
      && IsRun([PageInit(s0), s1, s2, s3, s4, s5],
               [OpNewDir, OpMmAlloc(Nth(1), U * PGSIZE, PGSIZE), OpMmAlloc(Nth(1), (U + 1) * PGSIZE, PGSIZE),
                OpNewDir, OpMmAlloc(Nth(1), (U + 1) * PGSIZE, PGSIZE)])
      && Inv(s5) && !Inv(NewDir(s5))
  {
    hide InvX, PageInit, NewDir, MapNew, Booted, LowSame, CanMapNew, Apply, Guard;
    FirstProcess(s0, kt);
    var a := PageInit(s0);
    var s1 := NewDir(a);
    var s2 := MapNew(s1, Nth(1), U);
    SecondProcess(s0, s2);
    var s3 := MapNew(s2, Nth(1), U + 1);
    var s4 := NewDir(s3);
    var s5 := MapNew(s4, Nth(1), U + 1);
    var ops := [OpNewDir, OpMmAlloc(Nth(1), U * PGSIZE, PGSIZE), OpMmAlloc(Nth(1), (U + 1) * PGSIZE, PGSIZE),
                OpNewDir, OpMmAlloc(Nth(1), (U + 1) * PGSIZE, PGSIZE)];
    var t := [a, s1, s2];
    var o := [OpNewDir, OpMmAlloc(Nth(1), U * PGSIZE, PGSIZE)];
    assert t[0] == a && t[1] == s1 && t[2] == s2 && o[0] == ops[0] && o[1] == ops[1];
    assert IsRun([a, s1, s2, s3, s4, s5], ops);
    Overwritten(s0, kt, s5);
  }

  lemma SecondProcess(s0: PM, s2: PM)
    requires Early(s0, s2, 4, {Nth(1)}, {Nth(0), Nth(3)}) && TableOf(s2, Nth(1), U) == Nth(3) && Present(At(s2.mem, Nth(1), 1))
    requires forall j :: j != 0 ==> At(s2.mem, Nth(3), j) == 0
    ensures var s3 := MapNew(s2, Nth(1), U + 1);
      var s4 := NewDir(s3);
      var s5 := MapNew(s4, Nth(1), U + 1);
      && Guard(s2, OpMmAlloc(Nth(1), (U + 1) * PGSIZE, PGSIZE)) && Apply(s2, OpMmAlloc(Nth(1), (U + 1) * PGSIZE, PGSIZE)) == s3
      && Guard(s3, OpNewDir) && Apply(s3, OpNewDir) == s4
      && Guard(s4, OpMmAlloc(Nth(1), (U + 1) * PGSIZE, PGSIZE)) && Apply(s4, OpMmAlloc(Nth(1), (U + 1) * PGSIZE, PGSIZE)) == s5
      && Inv(s5) && s5.free != [] && s5.free[0] == Nth(4) && s5.dirs == {Nth(1), Nth(5)} && s5.kern == s0.kern
      && s5.width == WIDTH && LowSame(s0, s5)
  {
    hide InvX, NewDir, MapNew, Pte, Clear, LowSame, MmAlloc, SafeMmAlloc, CanMapNew;
    var d, ds, ts := Nth(1), {Nth(1)}, {Nth(0), Nth(3)};
    EarlyNext(s0, s2, 4, ds, ts, d, U + 1);
    OnePageAlloc(s2, d, U + 1);
    var s3 := MapNew(s2, d, U + 1);
    EarlyClear(s0, s3, 5, ds, ts);
    EarlyDir(s0, s3, 5, ds, ts);
    var s4 := NewDir(s3);
    assert ds + {Nth(5)} == {Nth(1), Nth(5)};
    OldWords(s3, s4, Nth(5), d, Nth(3));
    EarlyOver(s0, s4, 6, {Nth(1), Nth(5)}, ts, d, U + 1, Nth(4));
    OnePageAlloc(s4, d, U + 1);
  }

  lemma OldWords(s: PM, s1: PM, p: int, d: int, t: int)
    requires DirAdded(s, s1, p) && d in s.dirs && t in s.tables
    ensures forall j :: At(s1.mem, d, j) == At(s.mem, d, j) && At(s1.mem, t, j) == At(s.mem, t, j)
  {
    assert Container(s, d) && Container(s, t);
  }

  lemma Overwritten(s0: PM, kt: int, s: PM)
    requires Booted(s0, kt) && s0.kern + WIDTH <= FIRST_MANAGED
    requires At(s0.mem, s0.kern + 1, LINEAR_BASE) != At(s0.mem, s0.kern, LINEAR_BASE)
    requires Inv(s) && s.free != [] && s.free[0] == Nth(4) && Nth(5) in s.dirs && s.kern == s0.kern && s.width == WIDTH && LowSame(s0, s)
    ensures !Inv(NewDir(s))
  {
    hide FreeOk, CountsOk, SlotsOk, OwnersOk, LeavesOk, NewDir, Copied, KernelSlot;
    var b := Nth(5);
    var m := Copied(s.mem, s.free[0], s.kern, s.width);
    NewDirIff(s);
    BootedSlot(s0, kt, LINEAR_BASE);
    CopiedBehind(s.mem, s.free[0], s.kern, s.width, 1);
    CopiedFrame(s.mem, s.free[0], s.kern, s.width);
    assert At(m, b, LINEAR_BASE) == At(s.mem, s.kern + 1, LINEAR_BASE);
    assert At(s.mem, b, LINEAR_BASE) == At(s.mem, s.kern, LINEAR_BASE);
    assert !SlotSpared(s, m, b, LINEAR_BASE);
  }

  /** The slots of a new directory are the kernel's. */
  lemma SonSlot(s: PM, s1: PM, d: int)
    requires DirAdded(s, s1, d)
    ensures At(s1.mem, d, 1) == At(s1.mem, s1.kern, 1)
  {
    assert Container(s, s.kern);
  }
}
