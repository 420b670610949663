/** kernel/src/paging/pmap.c in its own form: arrays updated in place, a free list threaded
    through `ppLink`, and loops.  Every method is proved against the functions of PageSpec. */
module Pmap {
  import opened Sequences
  import opened Mmu
  import opened PageSpec
  import opened PageInvariant
  import opened PageSteps
  import opened PageMapping
  import opened PageRegion
  import opened PageCopy
  import opened PageTeardown
  import opened PageRuns

  const NULL := -1

  /** The list that starts at page `head` and follows `link` is exactly q. */
  ghost predicate Links(link: seq<int>, head: int, q: seq<int>) {
    && head == First(q)
    && (forall i :: 0 <= i < |q| ==> 0 <= q[i] < |link| && link[q[i]] == Next(q, i))
  }

  function First(q: seq<int>): int { if q == [] then NULL else q[0] }

  function Next(q: seq<int>, i: nat): int { if i + 1 < |q| then q[i + 1] else NULL }

  lemma LinksPop(link: seq<int>, head: int, q: seq<int>)
    requires Links(link, head, q) && Distinct(q) && q != []
    ensures Links(link[q[0] := NULL], link[q[0]], q[1..]) && Distinct(q[1..])
  {
    assert forall i :: 0 <= i < |q| - 1 ==> Next(q[1..], i) == Next(q, i + 1);
  }

  lemma LinksPush(link: seq<int>, head: int, q: seq<int>, p: int)
    requires Links(link, head, q) && Distinct(q) && 0 <= p < |link| && p !in q
    ensures Links(link[p := head], p, [p] + q) && Distinct([p] + q)
  {
    assert forall i :: 0 < i <= |q| ==> Next([p] + q, i) == Next(q, i - 1);
  }

  class PhysMem {
    const mem: array<Page>        // contents of physical memory, page by page
    const ppRef: array<int>       // pages[i].pp_ref
    const ppLink: array<int>      // pages[i].pp_link, as a page index
    var pageFreeList: int
    const kernPgdir: int

    ghost var free: seq<int>
    ghost var dirs: set<int>
    ghost var tables: map<int, Slot>

    ghost function View(): PM
      reads this, mem, ppRef
    {
      PM(mem[..], ppRef[..], free, kernPgdir, dirs, tables, WIDTH)
    }

    /** The list threaded through ppLink is the ghost sequence `free`. */
    ghost predicate Rep()
      reads this, ppLink
    {
      && mem.Length == NPAGES && ppRef.Length == NPAGES && ppLink.Length == NPAGES
      && ppRef != ppLink && 0 <= kernPgdir < FIRST_MANAGED
      && Distinct(free) && Links(ppLink[..], pageFreeList, free)
    }

    ghost predicate Valid()
      reads this, mem, ppRef, ppLink
    {
      Rep() && Inv(View())
    }

    /** The static data of the kernel before page_init, over physical memory m. */
    constructor (m: array<Page>, kern: int)
      requires m.Length == NPAGES && 0 <= kern < FIRST_MANAGED
      ensures Rep() && free == [] && dirs == {} && tables == map[] && kernPgdir == kern && mem == m
      ensures fresh(ppRef) && fresh(ppLink)
    {
      mem := m;
      ppRef := new int[NPAGES];
      ppLink := new int[NPAGES];
      pageFreeList := NULL;
      kernPgdir := kern;
      free, dirs, tables := [], {}, map[];
    }

    /** page_init: afterwards the invariant holds, and the state is the one PageRuns.PageInit
        computes from a booted state. */
    method PageInit(kt: int) returns (ghost booted: PM)
      requires Rep() && free == [] && dirs == {} && tables == map[]
      requires ImagePlaced(kernPgdir, kt) && mem[kernPgdir] == ZeroPage()
      modifies this, mem, ppRef, ppLink
      ensures Valid() && Booted(booted, kt) && View() == PageRuns.PageInit(booted)
    {
      booted := InitBoot(kt);
      hide InvX, Links, Distinct, Booted, BootMap, CanBootRegion, Clear;
      BootedInv(booted, kt);
      BootedRegion(booted, kt);
      BootMapRegion(VRAM_FRAME, VRAM_PAGES, VRAM_FRAME, PTE_W + PTE_P);
    }

    /** page_init without its last call. */
    method InitBoot(kt: int) returns (ghost booted: PM)
      requires Rep() && free == [] && dirs == {} && tables == map[]
      requires ImagePlaced(kernPgdir, kt) && mem[kernPgdir] == ZeroPage()
      modifies this, mem, ppRef, ppLink
      ensures Rep() && Booted(booted, kt) && View() == booted
    {
      hide KernelSlot, LinearEntry, Pte, Distinct;
      InitKernPgdir(kt);
      label built:
      InitPages();
      assert mem[..] == old@built(mem[..]);
      booted := View();
    }

    /** init_kern_pgdir: the slots of the linear map, then its entries from the last down. */
    method InitKernPgdir(kt: int)
      requires mem.Length == NPAGES && ImagePlaced(kernPgdir, kt) && mem[kernPgdir] == ZeroPage()
      modifies mem
      ensures forall i :: 0 <= i < ENTRIES ==> At(mem[..], kernPgdir, i) == KernelSlot(kt, i)
      ensures forall j :: 0 <= j < NPAGES ==> LinearEntry(mem[..], kt, j) == Pte(j, PTE_P + PTE_W + PTE_U)
    {
      hide Pte;
      var pdx := 0;
      while pdx < LINEAR_TABLES
        invariant 0 <= pdx <= LINEAR_TABLES
        invariant forall i :: 0 <= i < ENTRIES ==>
            mem[kernPgdir][i] == if LINEAR_BASE <= i < LINEAR_BASE + pdx then KernelSlot(kt, i) else 0
      {
        mem[kernPgdir] := mem[kernPgdir][pdx + LINEAR_BASE := Pte(kt + pdx, PTE_P + PTE_W)];
        pdx := pdx + 1;
      }
      InitLinearMap(kt);
    }

    /** The second loop of init_kern_pgdir. */
    method InitLinearMap(kt: int)
      requires mem.Length == NPAGES && ImagePlaced(kernPgdir, kt)
      modifies mem
      ensures mem[kernPgdir] == old(mem[kernPgdir])
      ensures forall j :: 0 <= j < NPAGES ==> LinearEntry(mem[..], kt, j) == Pte(j, PTE_P + PTE_W + PTE_U)
    {
      hide Pte;
      var j := NPAGES - 1;
      while j >= 0
        invariant -1 <= j < NPAGES
        invariant mem[kernPgdir] == old(mem[kernPgdir])
        invariant forall k :: j < k < NPAGES ==> LinearEntry(mem[..], kt, k) == Pte(k, PTE_P + PTE_W + PTE_U)
      {
        ghost var was := mem[..];
        mem[kt + j / ENTRIES] := mem[kt + j / ENTRIES][j % ENTRIES := Pte(j, PTE_P + PTE_W + PTE_U)];
        LinearWrite(was, mem[..], kt, j);
        j := j - 1;
      }
    }

    /** The loops of page_init: low pages are in use, the others are chained, last one first. */
    method InitPages()
      requires ppRef.Length == NPAGES && ppLink.Length == NPAGES && ppRef != ppLink
      requires pageFreeList == NULL && free == []
      modifies this`pageFreeList, this`free, ppRef, ppLink
      ensures Links(ppLink[..], pageFreeList, free) && Distinct(free) && |free| == NPAGES - FIRST_MANAGED
      ensures forall j :: 0 <= j < |free| ==> free[j] == FIRST_MANAGED + j
      ensures forall f :: 0 <= f < NPAGES ==> ppRef[f] == if f < FIRST_MANAGED then 1 else 0
    {
      var i := 0;
      while i < FIRST_MANAGED
        invariant 0 <= i <= FIRST_MANAGED && free == [] && pageFreeList == NULL
        invariant forall f :: 0 <= f < i ==> ppRef[f] == 1
      {
        ppRef[i] := 1;
        i := i + 1;
      }
      i := NPAGES - 1;
      while i >= FIRST_MANAGED
        invariant FIRST_MANAGED - 1 <= i < NPAGES
        invariant forall f :: 0 <= f < FIRST_MANAGED ==> ppRef[f] == 1
        invariant forall f :: i < f < NPAGES ==> ppRef[f] == 0
        invariant Links(ppLink[..], pageFreeList, free) && Distinct(free) && |free| == NPAGES - 1 - i
        invariant forall j :: 0 <= j < |free| ==> free[j] == i + 1 + j
      {
        ppRef[i] := 0;
        LinksPush(ppLink[..], pageFreeList, free, i);
        ppLink[i] := pageFreeList;
        pageFreeList := i;
        free := [i] + free;
        i := i - 1;
      }
    }

    /** boot_map_region, called with the kernel directory. */
    method BootMapRegion(v: int, n: nat, f: int, perm: int)
      requires Valid() && CanBootRegion(View(), v, f, n) && 0 <= perm < PGSIZE
      modifies this, mem, ppRef, ppLink
      ensures Valid() && View() == BootMap(old(View()), v, f, n, perm)
    {
      hide InvX, BootMapOne, CanBootRegion, Links, Distinct;
      var i := 0;
      while i < n
        invariant 0 <= i <= n && Valid() && CanBootRegion(View(), v + i, f + i, n - i)
        invariant BootMap(View(), v + i, f + i, n - i, perm) == BootMap(old(View()), v, f, n, perm)
      {
        BootMapOneNext(View(), v + i, f + i, n - i, perm);
        BootMapOneKeeps(View(), v + i, f + i, perm);
        BootMapRound(v + i, f + i, perm);
        i := i + 1;
      }
    }

    /** The body of the loop of boot_map_region. */
    method BootMapRound(v: int, f: int, perm: int)
      requires Valid() && CanBootMap(View(), v, f)
      modifies this, mem, ppRef, ppLink
      ensures Rep() && View() == BootMapOne(old(View()), v, f, perm)
    {
      hide InvX, Walk, Links, Distinct, Pte;
      ghost var s0 := View();
      BootBounds(s0, v, f);
      var t := PgdirWalk(kernPgdir, v, true);
      if t == NULL {
        return;
      }
      mem[t] := mem[t][v % ENTRIES := Pte(f, WithP(perm))];
    }

    // ---- kernel/include/common.h

    /** memset(page2kva(p), 0, PGSIZE) */
    method MemZero(p: int)
      requires mem.Length == NPAGES && 0 <= p && p + WIDTH <= NPAGES
      modifies mem
      ensures mem[..] == Zeroed(old(mem[..]), p, WIDTH)
    {
      var j := 0;
      while j < WIDTH
        invariant 0 <= j <= WIDTH
        invariant forall f :: 0 <= f < NPAGES ==> mem[f] == if p <= f < p + j then ZeroPage() else old(mem[f])
      {
        mem[p + j] := ZeroPage();
        j := j + 1;
      }
    }

    /** memcpy(page2kva(dst), page2kva(src), PGSIZE) */
    method MemCopy(dst: int, src: int)
      requires mem.Length == NPAGES && 0 <= dst && dst + WIDTH <= NPAGES && 0 <= src && src + WIDTH <= NPAGES
      modifies mem
      ensures mem[..] == Copied(old(mem[..]), dst, src, WIDTH)
    {
      var j := 0;
      while j < WIDTH
        invariant 0 <= j <= WIDTH
        invariant CopyFrom(mem[..], dst, src, WIDTH, j) == CopyFrom(old(mem[..]), dst, src, WIDTH, 0)
      {
        ghost var was := mem[..];
        mem[dst + j] := mem[src + j];
        assert mem[..] == was[dst + j := PageAt(was, src + j)];
        j := j + 1;
      }
    }

    // ---- the free list

    /** page_alloc: the first free page, cleared if asked, or NULL. */
    method PageAlloc(zero: bool) returns (p: int)
      requires Rep()
      requires zero && free != [] ==> free[0] + WIDTH <= NPAGES
      modifies this, mem, ppLink
      ensures Rep() && (p == NULL <==> old(free) == []) && (p != NULL ==> 0 <= p < NPAGES)
      ensures old(free) == [] ==> p == NULL && View() == old(View())
      ensures old(free) != [] ==> p == old(free)[0]
      ensures old(free) != [] ==> View() == Pop(old(View())).(mem := if zero then Zeroed(old(mem[..]), p, WIDTH) else old(mem[..]))
    {
      p := pageFreeList;
      if p == NULL {
        return NULL;
      }
      if zero {
        MemZero(p);
      }
      LinksPop(ppLink[..], pageFreeList, free);
      pageFreeList := ppLink[pageFreeList];
      ppLink[p] := NULL;
      free := free[1..];
    }

    /** page_free */
    method PageFree(p: int)
      requires Rep() && 0 <= p < NPAGES && p !in free
      modifies this, ppLink
      ensures Rep() && View() == old(View()).(free := [p] + old(free))
    {
      LinksPush(ppLink[..], pageFreeList, free, p);
      ppLink[p] := pageFreeList;
      pageFreeList := p;
      free := [p] + free;
    }

    /** page_decref */
    method PageDecref(p: int)
      requires Rep() && 0 <= p < NPAGES && p !in free
      modifies this, ppRef, ppLink
      ensures Rep() && View() == Decref(old(View()), p)
    {
      ghost var was := ppRef[..];
      ppRef[p] := ppRef[p] - 1;
      assert ppRef[..] == AddRef(was, p, -1);
      if ppRef[p] == 0 {
        PageFree(p);
      }
    }
  
    // ---- page directories and tables

    /** pgdir_walk: the page of the table that holds the entry for v, or NULL. */
    method PgdirWalk(d: int, v: int, create: bool) returns (t: int)
      requires Rep() && 0 <= d < NPAGES && 0 <= v < VPNS
      requires create && free != [] && !Present(At(mem[..], d, v / ENTRIES)) ==> free[0] + WIDTH <= NPAGES
      modifies this, mem, ppRef, ppLink
      ensures Rep() && View() == if create then Walk(old(View()), d, v) else old(View())
      ensures t == if Present(At(mem[..], d, v / ENTRIES)) then TableOf(View(), d, v) else NULL
    {
      hide Zeroed, Links, Distinct, Pte;
      var pdx := v / ENTRIES;
      if Present(mem[d][pdx]) {
        return Frame(mem[d][pdx]);
      }
      if !create {
        return NULL;
      }
      t := PageAlloc(true);
      if t == NULL {
        return;
      }
      ppRef[t] := ppRef[t] + 1;
      mem[d] := mem[d][pdx := Pte(t, PTE_P + PTE_W + PTE_U)];
      tables := tables[t := Slot(d, pdx)];
      PteFields(t, PTE_P + PTE_W + PTE_U);
    }

    /** page_lookup: the page mapped at v and the table that holds its entry. */
    method PageLookup(d: int, v: int) returns (p: int, t: int)
      requires Rep() && 0 <= d < NPAGES && 0 <= v < VPNS
      requires Present(At(mem[..], d, v / ENTRIES)) ==> TableOf(View(), d, v) < NPAGES
      modifies this, mem, ppRef, ppLink
      ensures Rep() && View() == old(View())
      ensures t == if Present(At(mem[..], d, v / ENTRIES)) then TableOf(View(), d, v) else NULL
      ensures t != NULL ==> p == Frame(At(mem[..], t, v % ENTRIES))
      ensures t == NULL ==> p == NULL
    {
      p := NULL;
      t := PgdirWalk(d, v, false);
      if t != NULL {
        p := Frame(mem[t][v % ENTRIES]);
      }
    }

    /** page_remove; the page that the entry names, mapped or not, must be one that the kernel
        can find and that is not free. */
    method PageRemove(d: int, v: int)
      requires Rep() && 0 <= d < NPAGES && 0 <= v < VPNS
      requires Present(At(mem[..], d, v / ENTRIES)) ==>
          TableOf(View(), d, v) < NPAGES
          && Frame(At(mem[..], TableOf(View(), d, v), v % ENTRIES)) < NPAGES
          && Frame(At(mem[..], TableOf(View(), d, v), v % ENTRIES)) !in free
      modifies this, mem, ppRef, ppLink
      ensures Rep() && View() == RemoveAt(old(View()), d, v)
    {
      var p, t := PageLookup(d, v);
      if p != NULL {
        mem[t] := mem[t][v % ENTRIES := 0];
        PageDecref(p);
      }
    }
  
    /** page_insert: 0 on success, -1 when no table could be made. */
    method PageInsert(d: int, pp: int, v: int, perm: int, ghost held: set<int>) returns (r: int)
      requires Rep() && InvX(View(), held, {})
      requires CanWalk(View(), d, v) && 0 <= perm < PGSIZE
      requires Managed(pp) && pp !in dirs && pp !in tables && pp !in free && (pp in held || ppRef[pp] > 0)
      requires Translate(View(), d, v).Mapped? ==> Managed(Translate(View(), d, v).frame)
      modifies this, mem, ppRef, ppLink
      ensures Rep() && r == 0 && View() == Insert(old(View()), d, pp, v, perm)
    {
      hide InvX, CanWalk, Walk, Remove, Links, Distinct, Pte, Translate;
      ghost var s0 := View();
      InsertBounds(s0, held, d, v);
      var t := PgdirWalk(d, v, true);
      if t == NULL {
        return -1;
      }
      var i := v % ENTRIES;
      ghost var s1 := View();
      TranslatePresent(s1, d, v);
      if Present(mem[t][i]) {
        if Frame(mem[t][i]) == pp {
          mem[t] := mem[t][i := Pte(pp, WithP(perm))];
          assert mem[..] == Put(s1.mem, t, i, Pte(pp, WithP(perm)));
          PutTwice(s1.mem, t, i, Pte(pp, WithP(perm)));
        } else {
          PageRemove(d, v);
          RemoveKeepsShape(s1, d, v);
        }
      }
      ghost var m2 := mem[..];
      ghost var s2 := if Present(At(s1.mem, t, i)) && Frame(At(s1.mem, t, i)) != pp then Remove(s1, d, v) else s1;
      mem[t] := mem[t][i := Pte(pp, WithP(perm))];
      assert mem[..] == Put(m2, t, i, Pte(pp, WithP(perm)));
      ppRef[pp] := ppRef[pp] + 1;
      assert ppRef[..] == AddRef(s2.refs, pp, 1);
      assert TableOf(s1, d, v) == t;
      assert View() == s2.(mem := mem[..], refs := ppRef[..]);
      r := 0;
    }

    /** mm_alloc: a page for every page number that meets [va, va + len). */
    method MmAlloc(d: int, va: Word, len: Word)
      requires Valid() && CanMmAlloc(View(), d, PageDown(va), PageUp((va + len) % TWO_32))
      modifies this, mem, ppRef, ppLink
      ensures Valid() && View() == MmAllocBytes(old(View()), d, va, len)
    {
      hide InvX, CanMapNew, MapNew, Insert, Links, Distinct;
      var i := va - va % PGSIZE;
      var end := PageUp((va + len) % TWO_32) * PGSIZE;
      assert i / PGSIZE == PageDown(va);
      while i < end
        invariant i % PGSIZE == 0 && Valid()
        invariant CanMmAlloc(View(), d, i / PGSIZE, end / PGSIZE)
        invariant PageSpec.MmAlloc(View(), d, i / PGSIZE, end / PGSIZE)
               == PageSpec.MmAlloc(old(View()), d, PageDown(va), end / PGSIZE)
        decreases end - i
      {
        MapRound(d, i / PGSIZE);
        i := i + PGSIZE;
      }
    }

    /** The body of the loop of mm_alloc. */
    method MapRound(d: int, v: int)
      requires Valid() && CanMapNew(View(), d, v)
      modifies this, mem, ppRef, ppLink
      ensures Valid() && View() == MapNew(old(View()), d, v)
    {
      hide InvX, Insert, Translate, Links, Distinct;
      ghost var s0 := View();
      MapNewReady(s0, d, v);
      MapNewFresh(s0);
      MapNewKeeps(s0, d, v);
      var p := PageAlloc(false);
      MapRoundReady(s0, d, v);
      var r := PageInsert(d, p, v, PTE_W + PTE_P + PTE_U, {p});
    }

    /** The page directory of a new process, as pcb_create makes it; NULL without memory. */
    method NewPgdir() returns (p: int)
      requires Valid() && (free != [] ==> Clear(View()))
      modifies this, mem, ppRef, ppLink
      ensures Valid() && View() == NewDir(old(View()))
      ensures p == if old(free) == [] then NULL else old(free)[0]
    {
      hide InvX, Zeroed, Copied, Links, Distinct;
      ghost var s0 := View();
      if free != [] {
        NewDirKeeps(s0, {});
      }
      p := PageAlloc(true);
      if p == NULL {
        return;
      }
      ppRef[p] := ppRef[p] + 1;
      MemCopy(p, kernPgdir);
      dirs := dirs + {p};
    }

    /** copy_pgdir */
    method CopyPgdir(dst: int, src: int)
      requires Valid() && CanCopyDir(View(), dst, src, 0, false) && Readable(View(), dst, src, 0)
      modifies this, mem, ppRef, ppLink
      ensures Valid() && View() == CopyDir(old(View()), dst, src, 0)
    {
      hide InvX, CopySlot, NeedSlot, Links, Distinct, Readable, CanCopySlot;
      var pdx := 0;
      while pdx < ENTRIES
        invariant 0 <= pdx <= ENTRIES && Valid() && CanCopyDir(View(), dst, src, pdx, false)
        invariant CopyDir(View(), dst, src, pdx) == CopyDir(old(View()), dst, src, 0)
        invariant Readable(View(), dst, src, pdx)
      {
        ghost var s0 := View();
        CopyDirStep(s0, dst, src, pdx, false);
        CopySlotCopies(s0, dst, src, pdx, false);
        ReadableStep(s0, CopySlot(s0, dst, src, pdx), dst, src, pdx);
        CopyPgdirSlot(dst, src, pdx);
        pdx := pdx + 1;
      }
    }

    /** The body of the outer loop of copy_pgdir. */
    method CopyPgdirSlot(dst: int, src: int, pdx: int)
      requires Valid() && CanCopySlot(View(), dst, src, pdx, false) && ReadableSlot(View(), dst, src, pdx)
      modifies this, mem, ppRef, ppLink
      ensures Valid() && View() == CopySlot(old(View()), dst, src, pdx)
    {
      hide InvX, Zeroed, Links, Distinct, Pte, NeedSlot, NeedPage, CanCopyTable, Grows, SlotCopied, TableAdded;
      ghost var s0 := View();
      CopySlotCopies(s0, dst, src, pdx, false);
      CopySlotBounds(s0, dst, src, pdx);
      if Present(mem[src][pdx]) {
        if Present(mem[dst][pdx]) {
          return;
        }
        CopySlotReady(s0, dst, src, pdx, false);
        AddTableKeeps(s0, {}, dst, pdx, Attr(mem[src][pdx]));
        var attr, st := Attr(mem[src][pdx]), Frame(mem[src][pdx]);
        var t := PageAlloc(true);
        ppRef[t] := ppRef[t] + 1;
        mem[dst] := mem[dst][pdx := Pte(t, attr)];
        tables := tables[t := Slot(dst, pdx)];
        assert View() == AddTable(s0, dst, pdx, attr);
        PteFields(t, attr);
        CopyPgdirTable(t, st);
      }
    }

    /** The inner loop of copy_pgdir. */
    method CopyPgdirTable(t: int, st: int)
      requires Valid() && CanCopyTable(View(), t, st, 0, false) && ReadablePage(PageAt(mem[..], st))
      modifies this, mem, ppRef, ppLink
      ensures Valid() && View() == CopyTable(old(View()), t, st, 0)
    {
      hide InvX, CopyEntry, Links, Distinct, CanCopyTable;
      var ptx := 0;
      while ptx < ENTRIES
        invariant 0 <= ptx <= ENTRIES && Valid() && CanCopyTable(View(), t, st, ptx, false)
        invariant ReadablePage(PageAt(mem[..], st))
        invariant CopyTable(View(), t, st, ptx) == CopyTable(old(View()), t, st, 0)
      {
        ghost var s0 := View();
        CopyTableStep(s0, t, st, ptx, false);
        CopyEntryKeeps(s0, t, st, ptx, false);
        CopyPgdirEntry(t, st, ptx);
        ptx := ptx + 1;
      }
    }

    /** The body of the inner loop of copy_pgdir. */
    method CopyPgdirEntry(t: int, st: int, ptx: int)
      requires Rep() && CanCopyEntry(View(), t, st, ptx, false) && Inv(View()) && ReadablePage(PageAt(mem[..], st))
      modifies this, mem, ppRef, ppLink
      ensures Rep() && View() == CopyEntry(old(View()), t, st, ptx)
    {
      hide InvX, Copied, Links, Distinct, Pte;
      ghost var s0 := View();
      TableLive(s0, t);
      TableLive(s0, st);
      var e := mem[st][ptx];
      if Present(e) {
        SourceLive(s0, st, ptx);
        var p := PageAlloc(false);
        ppRef[p] := ppRef[p] + 1;
        mem[t] := mem[t][ptx := Pte(p, Attr(e))];
        MemCopy(p, Frame(e));
      }
    }

    /** free_pgdir */
    method FreePgdir(d: int)
      requires Valid() && d in dirs
      modifies this, mem, ppRef, ppLink
      ensures Valid() && View() == FreeDir(old(View()), d, 0)
    {
      hide InvX, FreeSlot, Links, Distinct, Freed;
      var pdx := 0;
      while pdx < ENTRIES
        invariant 0 <= pdx <= ENTRIES && Valid() && d in dirs
        invariant FreeDir(View(), d, pdx) == FreeDir(old(View()), d, 0)
      {
        ghost var s0 := View();
        FreeSlotKeeps(s0, d, pdx);
        FreePgdirSlot(d, pdx);
        pdx := pdx + 1;
      }
    }

    /** The body of the outer loop of free_pgdir. */
    method FreePgdirSlot(d: int, pdx: int)
      requires Valid() && d in dirs && 0 <= pdx < ENTRIES
      modifies this, mem, ppRef, ppLink
      ensures Rep() && View() == FreeSlot(old(View()), d, pdx)
    {
      hide InvX, FreeEntry, Links, Distinct, CanDrop;
      ghost var s0 := View();
      DirLive(s0, d);
      if Present(mem[d][pdx]) {
        if Present(mem[kernPgdir][pdx]) {
          return;
        }
        var t := Frame(mem[d][pdx]);
        OwnSlotDrops(s0, d, pdx);
        assert Done(t, 0) == {};
        FreeEntriesKeep(s0, t, 0);
        TableLive(s0, t);
        FreePgdirTable(t);
        DropBounds(View(), d, pdx, t);
        PageDecref(t);
        mem[d] := mem[d][pdx := 0];
        tables := tables - {t};
      }
    }

    /** The inner loop of free_pgdir. */
    method FreePgdirTable(t: int)
      requires Rep() && InvX(View(), {}, Done(t, 0)) && ProcessTable(View(), t)
      modifies this, mem, ppRef, ppLink
      ensures Rep() && View() == FreeEntries(old(View()), t, 0) && InvX(View(), {}, Done(t, ENTRIES))
    {
      hide InvX, Links, Distinct, Done;
      ghost var s := View();
      TableRange(s, t);
      var ptx := 0;
      while ptx < ENTRIES
        invariant 0 <= ptx <= ENTRIES && Rep() && InvX(View(), {}, Done(t, ptx))
        invariant ProcessTable(View(), t) && 0 <= t < NPAGES
        invariant FreeEntries(View(), t, ptx) == FreeEntries(s, t, 0)
      {
        FreeEntryKeeps(View(), t, ptx);
        if Present(mem[t][ptx]) {
          FreeEntryTarget(View(), t, ptx);
          PageDecref(Frame(mem[t][ptx]));
        }
        ptx := ptx + 1;
      }
    }
  }

  lemma TableRange(s: PM, t: int)
    requires InvX(s, {}, Done(t, 0)) && t in s.tables
    ensures 0 <= t < NPAGES
  {
  }

  /** A page a table entry maps is not on the free list before its reference is given back. */
  lemma FreeEntryTarget(s: PM, t: int, i: int)
    requires InvX(s, {}, Done(t, i)) && ProcessTable(s, t) && 0 <= t < NPAGES && 0 <= i < ENTRIES
    requires Present(At(s.mem, t, i))
    ensures Managed(Frame(At(s.mem, t, i))) && Frame(At(s.mem, t, i)) !in s.free
  {
    assert Slot(t, i) !in Done(t, i);
    PointedIsLive(s, {}, Done(t, i), Slot(t, i), Frame(At(s.mem, t, i)));
  }

  lemma DropBounds(s: PM, d: int, i: int, t: int)
    requires InvX(s, {}, Done(t, ENTRIES)) && 0 <= d < NPAGES && 0 <= i < ENTRIES && d != t
    requires IsOwn(s, d, i) && PointsTo(s, Slot(d, i), t) && Managed(t)
    ensures t !in s.free
  {
    assert Slot(d, i) !in Done(t, ENTRIES);
    PointedIsLive(s, {}, Done(t, ENTRIES), Slot(d, i), t);
  }

  lemma LinearWrite(m: seq<Page>, m1: seq<Page>, kt: int, j: int)
    requires |m| == NPAGES && 0 <= j < NPAGES && 0 <= kt && kt + LINEAR_TABLES <= NPAGES
    requires m1 == Put(m, kt + j / ENTRIES, j % ENTRIES, Pte(j, PTE_P + PTE_W + PTE_U))
    ensures LinearEntry(m1, kt, j) == Pte(j, PTE_P + PTE_W + PTE_U)
    ensures forall k :: j < k < NPAGES ==> LinearEntry(m1, kt, k) == LinearEntry(m, kt, k)
  {
    hide Pte;
    forall k | j < k < NPAGES
      ensures LinearEntry(m1, kt, k) == LinearEntry(m, kt, k)
    {
      assert k / ENTRIES != j / ENTRIES || k % ENTRIES != j % ENTRIES;
    }
  }

  lemma BootBounds(s: PM, v: int, f: int)
    requires Inv(s) && CanBootMap(s, v, f)
    ensures 0 <= s.kern < NPAGES && 0 <= v < VPNS
    ensures !Present(At(s.mem, s.kern, v / ENTRIES)) ==> s.free != [] && s.free[0] + s.width <= NPAGES
    ensures Present(At(Walk(s, s.kern, v).mem, s.kern, v / ENTRIES)) && 0 <= TableOf(Walk(s, s.kern, v), s.kern, v) < NPAGES
  {
    hide FreeOk, CountsOk, SlotsOk, OwnersOk, SharedOk, LeavesOk, Walk;
    BootWalk(s, v, f);
    TablePlain(Walk(s, s.kern, v), TableOf(Walk(s, s.kern, v), s.kern, v));
  }

  /** The copy helper reads the three pages behind each source page, so they must exist. */
  ghost predicate ReadablePage(pg: Page) {
    forall j :: 0 <= j < ENTRIES && Present(pg[j]) ==> Frame(pg[j]) + WIDTH <= NPAGES
  }

  ghost predicate ReadableSlot(s: PM, dst: int, src: int, i: int) {
    Copies(s, dst, src, i) ==> ReadablePage(PageAt(s.mem, Frame(At(s.mem, src, i))))
  }

  ghost predicate Readable(s: PM, dst: int, src: int, from: int) {
    forall i :: from <= i < ENTRIES ==> ReadableSlot(s, dst, src, i)
  }

  lemma ReadableStep(s: PM, s1: PM, dst: int, src: int, i: int)
    requires Inv(s) && dst in s.dirs && src in s.dirs && 0 <= i < ENTRIES
    requires Grows(s, s1, dst, i, i + 1, false) && Readable(s, dst, src, i)
    ensures ReadableSlot(s, dst, src, i) && Readable(s1, dst, src, i + 1)
  {
    hide InvX, ReadablePage;
    forall j | i + 1 <= j < ENTRIES
      ensures ReadableSlot(s1, dst, src, j)
    {
      assert ReadableSlot(s, dst, src, j);
      NeedSlotSame(s, s1, dst, src, i, j, false);
      if Copies(s, dst, src, j) {
        SourceTable(s, dst, src, j);
        assert Kept(s, Frame(At(s.mem, src, j)), false);
        assert PageAt(s1.mem, Frame(At(s.mem, src, j))) == PageAt(s.mem, Frame(At(s.mem, src, j)));
      }
    }
  }

  lemma CopySlotBounds(s: PM, dst: int, src: int, i: int)
    requires Inv(s) && CanCopySlot(s, dst, src, i, false)
    ensures 0 <= i < ENTRIES && 0 <= dst < NPAGES && 0 <= src < NPAGES && dst !in s.free
    ensures Copies(s, dst, src, i) ==> s.free != []
  {
    hide InvX;
    DirLive(s, dst);
    DirLive(s, src);
  }

  /** What one round of mm_alloc needs to know about the state after page_alloc. */
  lemma MapRoundReady(s: PM, d: int, v: int)
    requires Inv(s) && CanMapNew(s, d, v)
    requires CanInsert(Pop(s), {s.free[0]}, d, s.free[0], v)
    ensures CanWalk(Pop(s), d, v) && Managed(s.free[0]) && s.free[0] !in s.dirs && s.free[0] !in s.tables
    ensures s.free[0] !in s.free[1..] && PageDown(0) == 0
    ensures Translate(Pop(s), d, v).Mapped? ==> Managed(Translate(Pop(s), d, v).frame)
  {
  }

  lemma PutTwice(m: seq<Page>, t: int, i: int, w: Word)
    ensures Put(Put(m, t, i, w), t, i, w) == Put(m, t, i, w)
  {
    if 0 <= t < |m| && 0 <= i < ENTRIES {
      assert m[t][i := w][i := w] == m[t][i := w];
      assert Put(Put(m, t, i, w), t, i, w)[t] == Put(m, t, i, w)[t];
    }
  }

  lemma RemoveKeepsShape(s: PM, d: int, v: int)
    ensures |Remove(s, d, v).mem| == |s.mem| && |Remove(s, d, v).refs| == |s.refs|
  {
  }

  /** What page_insert needs to know about the state it starts from. */
  lemma InsertBounds(s: PM, held: set<int>, d: int, v: int)
    requires InvX(s, held, {}) && CanWalk(s, d, v)
    requires Translate(s, d, v).Mapped? ==> Managed(Translate(s, d, v).frame)
    ensures 0 <= d < NPAGES && 0 <= v < VPNS
    ensures !Present(At(s.mem, d, v / ENTRIES)) ==> s.free != [] && s.free[0] + s.width <= NPAGES
    ensures Present(At(Walk(s, d, v).mem, d, v / ENTRIES)) && 0 <= TableOf(Walk(s, d, v), d, v) < NPAGES
    ensures TableOf(Walk(s, d, v), d, v) != d
    ensures Translate(Walk(s, d, v), d, v) == Translate(s, d, v)
    ensures Translate(s, d, v).Mapped? ==> Translate(s, d, v).frame !in Walk(s, d, v).free
  {
    hide CountsOk, SlotsOk, OwnersOk, SharedOk, LeavesOk, Translate;
    ContainerIsLive(s, held, {}, d);
    MapNewWalked(s, held, d, v);
    WalkKeeps(s, held, d, v);
    WalkTranslate(s, held, d, v, d, v);
    if Translate(s, d, v).Mapped? {
      TranslatePresent(Walk(s, d, v), d, v);
      PointedIsLive(Walk(s, d, v), held, {}, Slot(TableOf(Walk(s, d, v), d, v), v % ENTRIES), Translate(s, d, v).frame);
    }
  }
}
