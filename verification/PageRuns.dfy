/** Every run of the page allocator and the page tables from boot on keeps the invariant. */
module PageRuns {
  import opened Sequences
  import opened Mmu
  import opened PageSpec
  import opened PageInvariant
  import opened PageSteps
  import opened PageMapping
  import opened PageRegion
  import opened PageCopy
  import opened PageTeardown
  import opened PageOverwrite
  import opened PageOverrun
  import opened PageExact
  import opened PageQuirks

  // ---- boot

  const LINEAR_BASE := 0xC000_0000 / 0x40_0000     // KERNBASE >> PDXSHIFT
  const LINEAR_TABLES := NPAGES / ENTRIES
  const VRAM_FRAME := 0xA0000 / PGSIZE
  const VRAM_PAGES := 16                           // ROUNDUP(320 * 200, PGSIZE) / PGSIZE

  /** The kernel image, with its static directory and the tables of the linear map, lies
      between one megabyte and the first managed page. */
  ghost predicate ImagePlaced(kern: int, kt: int) {
    && 0x100 <= kern < FIRST_MANAGED && 0x100 <= kt && kt + LINEAR_TABLES <= FIRST_MANAGED
    && !(kt <= kern < kt + LINEAR_TABLES)
  }

  /** Word i of the kernel directory after init_kern_pgdir. */
  function KernelSlot(kt: int, i: int): Word {
    if LINEAR_BASE <= i < LINEAR_BASE + LINEAR_TABLES then Pte(kt + (i - LINEAR_BASE), PTE_P + PTE_W) else 0
  }

  /** Entry j of the linear map, whose tables lie one after the other from page kt on. */
  function LinearEntry(mem: seq<Page>, kt: int, j: int): Word { At(mem, kt + j / ENTRIES, j % ENTRIES) }

  /** The state after init_kern_pgdir and the loops of page_init: a linear map of all
      physical memory above KERNBASE, and every managed page on the free list, in order. */
  ghost predicate Booted(s: PM, kt: int) {
    && ImagePlaced(s.kern, kt) && |s.mem| == NPAGES && |s.refs| == NPAGES
    && s.dirs == {} && s.tables == map[] && 1 <= s.width <= WIDTH
    && (forall i :: 0 <= i < ENTRIES ==> At(s.mem, s.kern, i) == KernelSlot(kt, i))
    && (forall j :: 0 <= j < NPAGES ==> LinearEntry(s.mem, kt, j) == Pte(j, PTE_P + PTE_W + PTE_U))
    && (forall f :: 0 <= f < NPAGES ==> s.refs[f] == (if f < FIRST_MANAGED then 1 else 0))
    && |s.free| == NPAGES - FIRST_MANAGED
    && (forall j :: 0 <= j < |s.free| ==> s.free[j] == FIRST_MANAGED + j)
  }

  lemma BootedSlot(s: PM, kt: int, i: int)
    requires Booted(s, kt) && 0 <= i < ENTRIES
    ensures Present(At(s.mem, s.kern, i)) <==> LINEAR_BASE <= i < LINEAR_BASE + LINEAR_TABLES
    ensures Present(At(s.mem, s.kern, i)) ==> Frame(At(s.mem, s.kern, i)) == kt + (i - LINEAR_BASE)
  {
    if LINEAR_BASE <= i < LINEAR_BASE + LINEAR_TABLES {
      PteFields(kt + (i - LINEAR_BASE), PTE_P + PTE_W);
    }
  }

  /** The kernel directory translates the addresses from KERNBASE on linearly, and no others. */
  lemma BootedTranslate(s: PM, kt: int, v: int)
    requires Booted(s, kt) && 0 <= v < VPNS
    ensures Translate(s, s.kern, v) ==
        if LINEAR_BASE * ENTRIES <= v < LINEAR_BASE * ENTRIES + NPAGES
        then Mapped(v - LINEAR_BASE * ENTRIES, PTE_P + PTE_W + PTE_U) else Unmapped
  {
    BootedSlot(s, kt, v / ENTRIES);
    var j := v - LINEAR_BASE * ENTRIES;
    if LINEAR_BASE * ENTRIES <= v < LINEAR_BASE * ENTRIES + NPAGES {
      assert j / ENTRIES == v / ENTRIES - LINEAR_BASE && j % ENTRIES == v % ENTRIES;
      assert LinearEntry(s.mem, kt, j) == Pte(j, PTE_P + PTE_W + PTE_U);
      PteFields(j, PTE_P + PTE_W + PTE_U);
    }
  }

  lemma BootedCounts(s: PM, kt: int)
    requires Booted(s, kt)
    ensures CountsOk(s, {})
  {
    forall f | Managed(f)
      ensures RefAt(s.refs, f) == Expected(s, {}, f)
    {
      forall sl | sl in AllSlots()
        ensures sl !in Refs(s, f)
      {
        BootedSlot(s, kt, sl.idx);
      }
      assert Refs(s, f) == {};
    }
  }

  lemma BootedInv(s: PM, kt: int)
    requires Booted(s, kt)
    ensures Inv(s) && Clear(s)
  {
    hide Expected;
    BootedCounts(s, kt);
    forall i | 0 <= i < ENTRIES && Present(At(s.mem, s.kern, i))
      ensures Frame(At(s.mem, s.kern, i)) < FIRST_MANAGED
    {
      BootedSlot(s, kt, i);
    }
    BootedFree(s, kt);
  }

  lemma BootedFree(s: PM, kt: int)
    requires Booted(s, kt)
    ensures FreeOk(s, {}) && Clear(s)
  {
    forall f | Managed(f)
      ensures f in s.free
    {
      assert s.free[f - FIRST_MANAGED] == f;
    }
    assert s.free[0] == FIRST_MANAGED;
  }

  /** One round of boot_map_region in the kernel directory. */
  function BootMapOne(s: PM, v: int, f: int, perm: int): PM {
    var s1 := Walk(s, s.kern, v);
    s1.(mem := Put(s1.mem, TableOf(s1, s.kern, v), v % ENTRIES, Pte(f, WithP(perm))))
  }

  function BootMap(s: PM, v: int, f: int, n: nat, perm: int): PM
    decreases n
  {
    if n == 0 then s else BootMap(BootMapOne(s, v, f, perm), v + 1, f + 1, n - 1, perm)
  }

  ghost predicate CanBootMap(s: PM, v: int, f: int) {
    && s.dirs == {} && 0 <= v < VPNS && 0 <= f < FIRST_MANAGED && f != s.kern
    && (if Present(At(s.mem, s.kern, v / ENTRIES)) then TableOf(s, s.kern, v) in s.tables else Clear(s))
    && Translate(s, s.kern, v) == Unmapped
  }

  lemma BootWalk(s: PM, v: int, f: int)
    requires Inv(s) && CanBootMap(s, v, f)
    ensures var s1 := Walk(s, s.kern, v);
      && Inv(s1) && s1.kern == s.kern && s1.dirs == {}
      && Present(At(s1.mem, s.kern, v / ENTRIES)) && TableOf(s1, s.kern, v) in s1.tables
      && !Present(At(s1.mem, TableOf(s1, s.kern, v), v % ENTRIES))
      && (forall i :: i != v / ENTRIES ==> At(s1.mem, s.kern, i) == At(s.mem, s.kern, i))
  {
    hide FreeOk, CountsOk, SlotsOk, OwnersOk, SharedOk, LeavesOk;
    if !Present(At(s.mem, s.kern, v / ENTRIES)) {
      AddTableKeeps(s, {}, s.kern, v / ENTRIES, PTE_P + PTE_W + PTE_U);
      AddTableAdds(s, {}, s.kern, v / ENTRIES, PTE_P + PTE_W + PTE_U);
    }
  }

  /** Mapping a device page in a kernel table changes no count. */
  lemma LowLeafKeeps(s: PM, t: int, i: int, f: int, attr: int)
    requires Inv(s) && t in s.tables && 0 <= i < ENTRIES && s.tables[t].page == s.kern
    requires !Present(At(s.mem, t, i)) && 0 <= f < FIRST_MANAGED && f != s.kern && 0 <= attr < PGSIZE
    ensures Inv(s.(mem := Put(s.mem, t, i, Pte(f, attr))))
  {
    hide CountsOk, SlotsOk, OwnersOk, SharedOk;
    var s1 := s.(mem := Put(s.mem, t, i, Pte(f, attr)));
    TablePlain(s, t);
    PteFields(f, attr);
    LeafOneWord(s, s1, t, i, Pte(f, attr));
    LeafTree(s, s1, t, i);
    LowLeafCounts(s, s1, t, i, Pte(f, attr));
  }

  lemma LowLeafCounts(s: PM, s1: PM, t: int, i: int, w: Word)
    requires CountsOk(s, {}) && OneWord(s, s1, Slot(t, i), w) && s1.dirs == s.dirs && s1.refs == s.refs
    requires !Present(At(s.mem, t, i)) && Frame(w) < FIRST_MANAGED
    ensures CountsOk(s1, {})
  {
    hide Expected, OneWord;
    forall g | Managed(g)
      ensures RefAt(s1.refs, g) == Expected(s1, {}, g)
    {
      OneWordCount(s, s1, Slot(t, i), w, {}, g);
    }
  }

  lemma BootMapOneKeeps(s: PM, v: int, f: int, perm: int)
    requires Inv(s) && CanBootMap(s, v, f) && 0 <= perm < PGSIZE
    ensures Inv(BootMapOne(s, v, f, perm))
  {
    hide FreeOk, CountsOk, SharedOk, LeavesOk, Walk, CanBootMap;
    BootWalk(s, v, f);
    BootMapGuard(s, v, f);
    var s1 := Walk(s, s.kern, v);
    SlotTarget(s1, s1.kern, v / ENTRIES);
    LowLeafKeeps(s1, TableOf(s1, s.kern, v), v % ENTRIES, f, WithP(perm));
  }

  lemma BootMapGuard(s: PM, v: int, f: int)
    requires CanBootMap(s, v, f)
    ensures 0 <= v < VPNS && 0 <= f < FIRST_MANAGED && f != s.kern
  {
  }

  /** No kernel slot leads back to the kernel directory. */
  ghost predicate NoSelfMap(s: PM) {
    forall i :: 0 <= i < ENTRIES && Present(At(s.mem, s.kern, i)) ==> Frame(At(s.mem, s.kern, i)) != s.kern
  }

  ghost predicate CanBootRegion(s: PM, v: int, f: int, n: nat) {
    && s.dirs == {} && NoSelfMap(s) && 0 <= v && v + n <= VPNS && 0 <= f && f + n <= FIRST_MANAGED
    && (n > 0 ==> v / ENTRIES == (v + n - 1) / ENTRIES)
    && !(f <= s.kern < f + n)
    && (n > 0 ==> if Present(At(s.mem, s.kern, v / ENTRIES)) then TableOf(s, s.kern, v) in s.tables else Clear(s))
    && (forall u :: v <= u < v + n ==> Translate(s, s.kern, u) == Unmapped)
  }

  lemma BootMapOneTranslate(s: PM, v: int, f: int, perm: int, v2: int)
    requires Inv(s) && CanBootMap(s, v, f) && NoSelfMap(s) && 0 <= perm < PGSIZE && 0 <= v2 < VPNS
    ensures Translate(BootMapOne(s, v, f, perm), s.kern, v2) ==
        if v2 == v then Mapped(f, WithP(perm)) else Translate(s, s.kern, v2)
  {
    hide FreeOk, CountsOk, SharedOk, LeavesOk, Walk;
    BootWalk(s, v, f);
    var s1, s2 := Walk(s, s.kern, v), BootMapOne(s, v, f, perm);
    var t := TableOf(s1, s.kern, v);
    TablePlain(s1, t);
    PteFields(f, WithP(perm));
    EntryTranslate(s1, s2, s.kern, v, s.kern, v2);
    BootWalkTranslate(s, v, f, v2);
  }

  lemma BootWalkTranslate(s: PM, v: int, f: int, v2: int)
    requires Inv(s) && CanBootMap(s, v, f) && NoSelfMap(s) && 0 <= v2 < VPNS
    ensures Translate(Walk(s, s.kern, v), s.kern, v2) == Translate(s, s.kern, v2)
  {
    hide FreeOk, CountsOk, SlotsOk, OwnersOk, SharedOk, LeavesOk;
    if !Present(At(s.mem, s.kern, v / ENTRIES)) {
      var s1 := Walk(s, s.kern, v);
      AddTableAdds(s, {}, s.kern, v / ENTRIES, PTE_P + PTE_W + PTE_U);
      if Present(At(s.mem, s.kern, v2 / ENTRIES)) {
        SlotTarget(s, s.kern, v2 / ENTRIES);
        var t := TableOf(s, s.kern, v2);
        MapNewFresh(s);
        if t in s.tables {
          TablePlain(s, t);
        }
        assert At(s1.mem, t, v2 % ENTRIES) == At(s.mem, t, v2 % ENTRIES);
      }
    }
  }

  lemma BootMapOneNext(s: PM, v: int, f: int, n: nat, perm: int)
    requires Inv(s) && CanBootRegion(s, v, f, n) && n > 0 && 0 <= perm < PGSIZE
    ensures CanBootMap(s, v, f)
    ensures BootMapOne(s, v, f, perm).kern == s.kern
    ensures CanBootRegion(BootMapOne(s, v, f, perm), v + 1, f + 1, n - 1)
  {
    hide InvX, Walk, BootMapOne, CanBootMap;
    assert CanBootMap(s, v, f) by { BootRegionFirst(s, v, f, n); }
    var s2 := BootMapOne(s, v, f, perm);
    BootMapOneSlots(s, v, f, perm);
    forall u | v + 1 <= u < v + n
      ensures Translate(s2, s2.kern, u) == Unmapped
    {
      BootMapOneTranslate(s, v, f, perm, u);
    }
    assert n > 1 ==> (v + 1) / ENTRIES == v / ENTRIES;
  }

  lemma BootRegionFirst(s: PM, v: int, f: int, n: nat)
    requires CanBootRegion(s, v, f, n) && n > 0
    ensures CanBootMap(s, v, f)
  {
    assert Translate(s, s.kern, v) == Unmapped;
  }

  lemma BootMapOneSlots(s: PM, v: int, f: int, perm: int)
    requires Inv(s) && CanBootMap(s, v, f) && NoSelfMap(s)
    ensures var s2 := BootMapOne(s, v, f, perm);
      && s2.kern == s.kern && s2.dirs == {} && NoSelfMap(s2)
      && Present(At(s2.mem, s.kern, v / ENTRIES)) && TableOf(s2, s.kern, v) in s2.tables
  {
    hide FreeOk, CountsOk, SlotsOk, OwnersOk, SharedOk, LeavesOk, Walk;
    BootWalk(s, v, f);
    var s1 := Walk(s, s.kern, v);
    TablePlain(s1, TableOf(s1, s.kern, v));
    assert forall i :: At(BootMapOne(s, v, f, perm).mem, s.kern, i) == At(s1.mem, s.kern, i);
  }

  /** boot_map_region for the video memory: the invariant holds afterwards, and the kernel
      directory translates the region to the device pages and all else as before. */
  lemma {:induction false} BootMapKeeps(s: PM, v: int, f: int, n: nat, perm: int, v2: int)
    requires Inv(s) && CanBootRegion(s, v, f, n) && 0 <= perm < PGSIZE && 0 <= v2 < VPNS
    ensures Inv(BootMap(s, v, f, n, perm)) && BootMap(s, v, f, n, perm).kern == s.kern
    ensures Translate(BootMap(s, v, f, n, perm), s.kern, v2) ==
        if v <= v2 < v + n then Mapped(f + (v2 - v), WithP(perm)) else Translate(s, s.kern, v2)
    decreases n
  {
    hide InvX, BootMapOne, CanBootMap, CanBootRegion, Translate;
    if n > 0 {
      BootMapOneNext(s, v, f, n, perm);
      BootMapOneKeeps(s, v, f, perm);
      assert NoSelfMap(s) by { BootRegionSelf(s, v, f, n); }
      BootMapOneTranslate(s, v, f, perm, v2);
      BootMapKeeps(BootMapOne(s, v, f, perm), v + 1, f + 1, n - 1, perm, v2);
    }
  }

  lemma BootRegionSelf(s: PM, v: int, f: int, n: nat)
    requires CanBootRegion(s, v, f, n)
    ensures NoSelfMap(s)
  {
  }

  /** What else boot_map_region does: it takes one page at most, for the table, and leaves low
      memory alone but for the directory slot. */
  lemma BootMapOneRest(s: PM, v: int, f: int, perm: int)
    requires Inv(s) && CanBootMap(s, v, f) && 0 <= perm < PGSIZE
    ensures var s1 := BootMapOne(s, v, f, perm);
      && s1.free == (if Present(At(s.mem, s.kern, v / ENTRIES)) then s.free else s.free[1..])
      && s1.tables.Keys == (if Present(At(s.mem, s.kern, v / ENTRIES)) then s.tables.Keys else s.tables.Keys + {s.free[0]})
      && s1.width == s.width && s1.dirs == s.dirs && s1.kern == s.kern && RefAt(s1.refs, 0) == RefAt(s.refs, 0)
      && (forall c, i :: c < FIRST_MANAGED && (c != s.kern || i != v / ENTRIES) ==> At(s1.mem, c, i) == At(s.mem, c, i))
      && Present(At(s1.mem, s.kern, v / ENTRIES))
  {
    hide CountsOk, SlotsOk, OwnersOk, SharedOk, LeavesOk, Pte;
    BootWalk(s, v, f);
    var s1 := Walk(s, s.kern, v);
    TablePlain(s1, TableOf(s1, s.kern, v));
    if !Present(At(s.mem, s.kern, v / ENTRIES)) {
      assert Managed(s.free[0]);
    }
  }

  lemma {:induction false} BootMapRest(s: PM, v: int, f: int, n: nat, perm: int)
    requires Inv(s) && CanBootRegion(s, v, f, n) && 0 <= perm < PGSIZE && n > 0
    ensures var s1 := BootMap(s, v, f, n, perm);
      && s1.free == (if Present(At(s.mem, s.kern, v / ENTRIES)) then s.free else s.free[1..])
      && s1.tables.Keys == (if Present(At(s.mem, s.kern, v / ENTRIES)) then s.tables.Keys else s.tables.Keys + {s.free[0]})
      && s1.width == s.width && s1.dirs == s.dirs && s1.kern == s.kern && RefAt(s1.refs, 0) == RefAt(s.refs, 0)
      && (forall c, i :: c < FIRST_MANAGED && (c != s.kern || i != v / ENTRIES) ==> At(s1.mem, c, i) == At(s.mem, c, i))
    decreases n
  {
    hide InvX, BootMapOne, CanBootMap, CanBootRegion;
    BootMapOneNext(s, v, f, n, perm);
    BootMapOneKeeps(s, v, f, perm);
    BootMapOneRest(s, v, f, perm);
    assert s.free != [] || Present(At(s.mem, s.kern, v / ENTRIES)) by { RegionFree(s, v, f, n); }
    if n > 1 {
      assert (v + 1) / ENTRIES == v / ENTRIES by { RegionOne(s, v, f, n); }
      BootMapRest(BootMapOne(s, v, f, perm), v + 1, f + 1, n - 1, perm);
    }
  }

  lemma RegionFree(s: PM, v: int, f: int, n: nat)
    requires CanBootRegion(s, v, f, n) && n > 0
    ensures s.free != [] || Present(At(s.mem, s.kern, v / ENTRIES))
  {
  }

  lemma RegionOne(s: PM, v: int, f: int, n: nat)
    requires CanBootRegion(s, v, f, n) && n > 1
    ensures (v + 1) / ENTRIES == v / ENTRIES
  {
  }

  /** The state page_init leaves. */
  function PageInit(s: PM): PM { BootMap(s, VRAM_FRAME, VRAM_FRAME, VRAM_PAGES, PTE_W + PTE_P) }

  /** page_init establishes the invariant; the kernel directory maps all physical memory from
      KERNBASE on, the video memory at its own address, and nothing else. */
  lemma PageInitEstablishes(s: PM, kt: int, v: int)
    requires Booted(s, kt) && 0 <= v < VPNS
    ensures Inv(PageInit(s)) && PageInit(s).kern == s.kern
    ensures Translate(PageInit(s), s.kern, v) ==
        if VRAM_FRAME <= v < VRAM_FRAME + VRAM_PAGES then Mapped(v, PTE_W + PTE_P)
        else if LINEAR_BASE * ENTRIES <= v < LINEAR_BASE * ENTRIES + NPAGES
        then Mapped(v - LINEAR_BASE * ENTRIES, PTE_P + PTE_W + PTE_U) else Unmapped
  {
    hide InvX, BootMap, Translate, Clear;
    BootedInv(s, kt);
    BootedRegion(s, kt);
    BootMapKeeps(s, VRAM_FRAME, VRAM_FRAME, VRAM_PAGES, PTE_W + PTE_P, v);
    BootedTranslate(s, kt, v);
  }

  lemma BootedRegion(s: PM, kt: int)
    requires Booted(s, kt) && Clear(s)
    ensures CanBootRegion(s, VRAM_FRAME, VRAM_FRAME, VRAM_PAGES)
  {
    hide Translate, Clear;
    forall i | 0 <= i < ENTRIES && Present(At(s.mem, s.kern, i))
      ensures Frame(At(s.mem, s.kern, i)) != s.kern
    {
      BootedSlot(s, kt, i);
    }
    forall u | VRAM_FRAME <= u < VRAM_FRAME + VRAM_PAGES
      ensures Translate(s, s.kern, u) == Unmapped
    {
      BootedTranslate(s, kt, u);
    }
    BootedSlot(s, kt, VRAM_FRAME / ENTRIES);
  }

  // ---- runs

  /** mm_alloc(pgdir, va, len), with its 32-bit rounding. */
  function MmAllocBytes(s: PM, d: int, va: Word, len: Word): PM {
    MmAlloc(s, d, PageDown(va), PageUp((va + len) % TWO_32))
  }

  /** When nothing wraps, the pages mm_alloc visits are those that meet [va, va + len). */
  lemma RegionPages(va: Word, len: Word, v: int)
    requires va + len + PGSIZE <= TWO_32
    ensures PageDown(va) <= v < PageUp((va + len) % TWO_32) <==> v * PGSIZE < va + len && va < (v + 1) * PGSIZE
  {
    assert (va + len) % TWO_32 == va + len;
    assert (va + len + PGSIZE - 1) % TWO_32 == va + len + PGSIZE - 1;
  }

  /** The operations of a run: a process directory is made, pages are allocated, mapped at a
      further address or unmapped, a directory is copied, shared with a thread or torn down. */
  datatype Op =
    | OpNewDir
    | OpMmAlloc(d: int, va: Word, len: Word)
    | OpInsert(d: int, pp: int, v: int, perm: int)
    | OpRemove(d: int, v: int)
    | OpCopy(dst: int, src: int)
    | OpThread(son: int, cur: int, user: bool)
    | OpFree(d: int)

  /** Each page taken on the way meets the exact condition for what is overwritten with it, and
      a removal the exact condition on the entry; a thread is made by a process without tables
      of its own. */
  ghost predicate Guard(s: PM, op: Op) {
    match op
    case OpNewDir => SafeNewDir(s)
    case OpMmAlloc(d, va, len) => SafeMmAlloc(s, d, PageDown(va), PageUp((va + len) % TWO_32))
    case OpInsert(d, pp, v, perm) => Insertable(s, {}, d, pp, v) && TableSafe(s, d, v) && 0 <= perm < PGSIZE
    case OpRemove(d, v) =>
      && d in s.dirs && 0 <= v < VPNS && Removable(s, d, v)
      && (Present(At(s.mem, d, v / ENTRIES)) ==> TableOf(s, d, v) >= FIRST_MANAGED)
    case OpCopy(dst, src) => SafeCopyDir(s, dst, src, 0)
    case OpThread(son, cur, user) =>
      && son in s.dirs && cur in s.dirs && son != cur && NoOwnTables(s, son) && (user ==> CanCopyDir(s, son, cur, 0, false))
      && NoOwnTables(s, cur) && SparedBehind(s, son, cur)
    case OpFree(d) => d in s.dirs
  }

  function Apply(s: PM, op: Op): PM {
    match op
    case OpNewDir => NewDir(s)
    case OpMmAlloc(d, va, len) => MmAllocBytes(s, d, va, len)
    case OpInsert(d, pp, v, perm) => Insert(s, d, pp, v, perm)
    case OpRemove(d, v) => RemoveAt(s, d, v)
    case OpCopy(dst, src) => CopyDir(s, dst, src, 0)
    case OpThread(son, cur, user) => MakeThread(s, son, cur, user)
    case OpFree(d) => FreeDir(s, d, 0)
  }

  lemma StepKeeps(s: PM, op: Op)
    requires Inv(s) && Guard(s, op)
    ensures Inv(Apply(s, op))
  {
    hide InvX, NewDir, MmAlloc, Insert, RemoveAt, CopyDir, FreeDir, MakeThread, NoOwnTables, SparedBehind, CanCopyDir, Insertable, Removable, SafeCopyDir, SafeMmAlloc, SafeNewDir, TableSafe;
    match op
    case OpNewDir => SafeNewDirKeeps(s);
    case OpMmAlloc(d, va, len) => SafeMmAllocKeeps(s, d, PageDown(va), PageUp((va + len) % TWO_32));
    case OpInsert(d, pp, v, perm) => InsertIff(s, {}, d, pp, v, perm); assert {} - {pp} == {};
    case OpRemove(d, v) => RemoveIff(s, d, v);
    case OpCopy(dst, src) => SafeCopyDirKeeps(s, dst, src, 0);
    case OpThread(son, cur, user) => ThreadIff(s, son, cur, user);
    case OpFree(d) => FreeDirKeeps(s, d, 0);
  }

  /** trace lists the states of a run: each next state is an allowed operation's result. */
  ghost predicate IsRun(trace: seq<PM>, ops: seq<Op>) {
    && |trace| == |ops| + 1
    && (forall i :: 0 <= i < |ops| ==> Guard(trace[i], ops[i]) && trace[i + 1] == Apply(trace[i], ops[i]))
  }

  lemma {:induction false} RunKeeps(trace: seq<PM>, ops: seq<Op>, n: nat)
    requires IsRun(trace, ops) && Inv(trace[0]) && n <= |ops|
    ensures Inv(trace[n])
  {
    hide Inv, Guard, Apply;
    if n > 0 {
      RunKeeps(trace, ops, n - 1);
      StepKeeps(trace[n - 1], ops[n - 1]);
    }
  }

  /** The main result: in every state of every run from boot, the free list is free of
      duplicates and holds only pages with count zero; every managed page outside it has a
      count equal to the number of slots pointing at it, plus one for a process directory;
      and no page on the free list is reachable through any table. */
  lemma EveryRun(s0: PM, kt: int, trace: seq<PM>, ops: seq<Op>, n: nat, f: int)
    requires Booted(s0, kt) && IsRun(trace, ops) && trace[0] == PageInit(s0) && n <= |ops| && Managed(f)
    ensures var s := trace[n];
      && Distinct(s.free)
      && RefAt(s.refs, f) == |Refs(s, f)| + DirCount(s, f)
      && (f in s.free <==> RefAt(s.refs, f) == 0)
      && (forall t, i :: t in s.tables && 0 <= i < ENTRIES && Present(At(s.mem, t, i)) && Frame(At(s.mem, t, i)) == f ==>
            f !in s.free)
  {
    hide InvX, PageInit, Booted, Guard, Apply;
    PageInitEstablishes(s0, kt, 0);
    RunKeeps(trace, ops, n);
    InvMeans(trace[n], f);
  }

  lemma InvMeans(s: PM, f: int)
    requires Inv(s) && Managed(f)
    ensures Distinct(s.free)
    ensures RefAt(s.refs, f) == |Refs(s, f)| + DirCount(s, f)
    ensures f in s.free <==> RefAt(s.refs, f) == 0
    ensures forall t, i :: t in s.tables && 0 <= i < ENTRIES && Present(At(s.mem, t, i)) && Frame(At(s.mem, t, i)) == f ==>
      f !in s.free
  {
    hide SlotsOk, OwnersOk, SharedOk, LeavesOk, Refs;
    FreeIffUnreferenced(s, f);
    forall t, i | t in s.tables && 0 <= i < ENTRIES && Present(At(s.mem, t, i)) && Frame(At(s.mem, t, i)) == f
      ensures f !in s.free
    {
      PointedIsLive(s, {}, {}, Slot(t, i), f);
    }
  }
}
