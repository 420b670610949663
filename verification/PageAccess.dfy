/** Who may do what: an access of the processor needs the right in the directory slot and in the
    table entry.  What the operations give to user code, and that no run gives it low memory. */
module PageAccess {
  import opened Mmu
  import opened PageSpec
  import opened PageInvariant
  import opened PageSteps
  import opened PageMapping
  import opened PageRegion
  import opened PageOverwrite
  import opened PageCopy
  import opened PageTeardown
  import opened PageOverrun
  import opened PageExact
  import opened PageQuirks
  import opened PageRuns

  predicate CanWrite(attr: int) { attr / PTE_W % 2 == 1 }

  predicate IsUser(attr: int) { attr / PTE_U % 2 == 1 }

  datatype Access = NoAccess | Access(frame: int, write: bool, user: bool)

  /** The attributes of the directory slot that leads to v. */
  function SlotAttr(s: PM, d: int, v: int): int { Attr(At(s.mem, d, v / ENTRIES)) }

  /** What the processor allows at page number v: writing, and access from user code, only if
      slot and entry both say so. */
  function AccessOf(s: PM, d: int, v: int): Access {
    match Translate(s, d, v)
    case Unmapped => NoAccess
    case Mapped(f, a) => Access(f, CanWrite(a) && CanWrite(SlotAttr(s, d, v)), IsUser(a) && IsUser(SlotAttr(s, d, v)))
  }

  // ---- boot

  /** After page_init the kernel reaches all physical memory and the video memory, writable, and
      user code reaches nothing. */
  lemma BootAccess(s: PM, kt: int, v: int)
    requires Booted(s, kt) && 0 <= v < VPNS
    ensures AccessOf(PageInit(s), s.kern, v) ==
        if VRAM_FRAME <= v < VRAM_FRAME + VRAM_PAGES then Access(v, true, false)
        else if LINEAR_BASE * ENTRIES <= v < LINEAR_BASE * ENTRIES + NPAGES
        then Access(v - LINEAR_BASE * ENTRIES, true, false) else NoAccess
  {
    hide InvX, PageInit, Booted, Translate;
    PageInitEstablishes(s, kt, v);
    BootSlots(s, kt, v / ENTRIES);
  }

  /** The slots of the kernel directory after page_init: those of the linear map as they were,
      and one more for the video memory. */
  lemma BootSlots(s: PM, kt: int, i: int)
    requires Booted(s, kt) && 0 <= i < ENTRIES
    ensures i == 0 ==> At(PageInit(s).mem, s.kern, i) == Pte(FIRST_MANAGED, PTE_P + PTE_W + PTE_U)
    ensures i != 0 ==> At(PageInit(s).mem, s.kern, i) == At(s.mem, s.kern, i)
    ensures LINEAR_BASE <= i < LINEAR_BASE + LINEAR_TABLES ==> i != 0 && Attr(At(s.mem, s.kern, i)) == PTE_P + PTE_W
    ensures i == 0 ==> Attr(At(PageInit(s).mem, s.kern, i)) == PTE_P + PTE_W + PTE_U && Frame(At(PageInit(s).mem, s.kern, i)) == FIRST_MANAGED
    ensures PageInit(s).tables.Keys == {FIRST_MANAGED} && PageInit(s).dirs == {}
  {
    hide InvX, BootMap, CanBootRegion, Clear, Pte;
    BootedInv(s, kt);
    BootedRegion(s, kt);
    BootedSlot(s, kt, VRAM_FRAME / ENTRIES);
    BootMapRest(s, VRAM_FRAME, VRAM_FRAME, VRAM_PAGES, PTE_W + PTE_P);
    BootMapSlot(s, VRAM_FRAME, VRAM_FRAME, VRAM_PAGES, PTE_W + PTE_P);
    assert s.free[0] == FIRST_MANAGED;
    PteFields(FIRST_MANAGED, PTE_P + PTE_W + PTE_U);
    if LINEAR_BASE <= i < LINEAR_BASE + LINEAR_TABLES {
      PteFields(kt + (i - LINEAR_BASE), PTE_P + PTE_W);
    }
  }

  /** The table that boot_map_region makes stays in its slot. */
  lemma {:induction false} BootMapSlot(s: PM, v: int, f: int, n: nat, perm: int)
    requires Inv(s) && CanBootRegion(s, v, f, n) && 0 <= perm < PGSIZE && n > 0
    ensures At(BootMap(s, v, f, n, perm).mem, s.kern, v / ENTRIES) ==
        if Present(At(s.mem, s.kern, v / ENTRIES)) then At(s.mem, s.kern, v / ENTRIES)
        else if s.free == [] then 0 else Pte(s.free[0], PTE_P + PTE_W + PTE_U)
    decreases n
  {
    hide InvX, BootMapOne, CanBootMap, CanBootRegion, Pte;
    BootMapOneNext(s, v, f, n, perm);
    BootMapOneKeeps(s, v, f, perm);
    BootMapOneRest(s, v, f, perm);
    assert s.free != [] || Present(At(s.mem, s.kern, v / ENTRIES)) by { RegionFree(s, v, f, n); }
    BootMapOneSlot(s, v, f, perm);
    if n > 1 {
      assert (v + 1) / ENTRIES == v / ENTRIES by { RegionOne(s, v, f, n); }
      BootMapSlot(BootMapOne(s, v, f, perm), v + 1, f + 1, n - 1, perm);
    }
  }

  lemma BootMapOneSlot(s: PM, v: int, f: int, perm: int)
    requires Inv(s) && CanBootMap(s, v, f) && 0 <= perm < PGSIZE
    requires s.free != [] || Present(At(s.mem, s.kern, v / ENTRIES))
    ensures At(BootMapOne(s, v, f, perm).mem, s.kern, v / ENTRIES) ==
        if Present(At(s.mem, s.kern, v / ENTRIES)) then At(s.mem, s.kern, v / ENTRIES) else Pte(s.free[0], PTE_P + PTE_W + PTE_U)
  {
    hide CountsOk, SlotsOk, OwnersOk, SharedOk, LeavesOk, Pte;
    BootWalk(s, v, f);
    var s1 := Walk(s, s.kern, v);
    TablePlain(s1, TableOf(s1, s.kern, v));
  }

  // ---- a new process

  /** A new directory gives exactly what the kernel's gives. */
  lemma NewDirAccess(s: PM, v: int)
    requires Inv(s) && Clear(s) && 0 <= v < VPNS
    ensures AccessOf(NewDir(s), s.free[0], v) == AccessOf(s, s.kern, v)
  {
    hide FreeOk, CountsOk, SlotsOk, OwnersOk, SharedOk, LeavesOk, Zeroed, Copied;
    NewDirAdds(s, {});
    var s1 := NewDir(s);
    if Present(At(s.mem, s.kern, v / ENTRIES)) {
      SlotTarget(s, s.kern, v / ENTRIES);
      LowWords(s);
    }
  }

  lemma LowWords(s: PM)
    requires Inv(s) && Clear(s)
    ensures forall c, j :: c < FIRST_MANAGED ==> At(NewDir(s).mem, c, j) == At(s.mem, c, j)
  {
    hide CountsOk, Tree, Zeroed, Copied;
    var p := s.free[0];
    assert Managed(p);
    ZeroedFrame(s.mem, p, s.width);
    CopiedFrame(Zeroed(s.mem, p, s.width), p, s.kern, s.width);
    forall c, j | c < FIRST_MANAGED
      ensures At(NewDir(s).mem, c, j) == At(s.mem, c, j)
    {
      assert PageAt(NewDir(s).mem, c) == PageAt(s.mem, c);
    }
  }

  // ---- page_insert and mm_alloc

  /** The directory slot that leads to v: as it was, or a new one with all rights. */
  function SlotRights(w: Word): int { if Present(w) then Attr(w) else PTE_P + PTE_W + PTE_U }

  lemma WalkSlot(s: PM, held: set<int>, d: int, v: int, d2: int, i: int)
    requires InvX(s, held, {}) && CanWalk(s, d, v) && IsDir(s, d2) && 0 <= i < ENTRIES
    ensures var w, w1 := At(s.mem, d2, i), At(Walk(s, d, v).mem, d2, i);
      && (Present(w) ==> w1 == w) && SlotRights(w1) == SlotRights(w)
      && (d2 == d && i == v / ENTRIES ==> Present(w1))
  {
    hide CountsOk, SlotsOk, OwnersOk, SharedOk, LeavesOk;
    if !Present(At(s.mem, d, v / ENTRIES)) {
      AddTableAdds(s, held, d, v / ENTRIES, PTE_P + PTE_W + PTE_U);
      PteFields(s.free[0], PTE_P + PTE_W + PTE_U);
      ContainerIsLive(s, held, {}, d);
    }
  }

  lemma ReplaceSlots(s: PM, t: int, i: int, pp: int, attr: int, d: int, j: int)
    requires Shape(s) && DirsOk(s) && t in s.tables && IsDir(s, d)
    ensures At(Link(Unlinked(s, t, i), t, i, pp, attr).mem, d, j) == At(s.mem, d, j)
  {
  }

  /** The right of the slot after page_insert, in all directories. */
  lemma InsertSlot(s: PM, held: set<int>, d: int, pp: int, v: int, perm: int, d2: int, i: int)
    requires InvX(s, held, {}) && CanInsert(s, held, d, pp, v) && 0 <= perm < PGSIZE && IsDir(s, d2) && 0 <= i < ENTRIES
    ensures var w, w1 := At(s.mem, d2, i), At(Insert(s, d, pp, v, perm).mem, d2, i);
      && (Present(w) ==> w1 == w) && SlotRights(w1) == SlotRights(w)
      && (d2 == d && i == v / ENTRIES ==> Present(w1))
  {
    hide InvX, Insert, Link, Unlinked, Walk, CanReplace;
    MapNewWalked(s, held, d, v);
    InsertIsReplace(s, held, d, pp, v, perm);
    WalkSlot(s, held, d, v, d2, i);
    ReplaceSlots(Walk(s, d, v), TableOf(Walk(s, d, v), d, v), v % ENTRIES, pp, WithP(perm), d2, i);
  }

  /** page_insert gives the rights in perm, as far as the directory slot has them; a slot that it
      has to fill has them all.  Everything else keeps its rights. */
  lemma InsertAccess(s: PM, held: set<int>, d: int, pp: int, v: int, perm: int, d2: int, v2: int)
    requires InvX(s, held, {}) && CanInsert(s, held, d, pp, v) && 0 <= perm < PGSIZE && IsDir(s, d2) && 0 <= v2 < VPNS
    ensures AccessOf(Insert(s, d, pp, v, perm), d2, v2) ==
        if v2 == v && (d2 == d || SharedSlot(s, v / ENTRIES))
        then var a := SlotRights(At(s.mem, d, v / ENTRIES)); Access(pp, CanWrite(perm) && CanWrite(a), IsUser(perm) && IsUser(a))
        else AccessOf(s, d2, v2)
  {
    hide InvX, Insert, CanInsert, CanWrite, IsUser, Translate;
    InsertDir(s, held, d, pp, v);
    InsertTranslate(s, held, d, pp, v, perm, d2, v2);
    InsertSlot(s, held, d, pp, v, perm, d2, v2 / ENTRIES);
    SameRights(perm);
    if v2 == v && d2 != d && SharedSlot(s, v / ENTRIES) {
      SharedWords(s, held, d, d2, v / ENTRIES);
    }
    MappedSlot(s, d2, v2);
  }

  lemma InsertDir(s: PM, held: set<int>, d: int, pp: int, v: int)
    requires CanInsert(s, held, d, pp, v)
    ensures d in s.dirs && 0 <= v < VPNS
  {
  }

  /** The present bit takes no right away. */
  lemma SameRights(perm: int)
    requires 0 <= perm < PGSIZE
    ensures CanWrite(WithP(perm)) == CanWrite(perm) && IsUser(WithP(perm)) == IsUser(perm)
  {
  }

  lemma MappedSlot(s: PM, d: int, v: int)
    ensures Translate(s, d, v).Mapped? ==> Present(At(s.mem, d, v / ENTRIES))
  {
  }

  lemma SharedWords(s: PM, held: set<int>, d: int, d2: int, i: int)
    requires InvX(s, held, {}) && IsDir(s, d) && IsDir(s, d2) && SharedSlot(s, i) && 0 <= i < ENTRIES
    ensures At(s.mem, d, i) == At(s.mem, d2, i) && Present(At(s.mem, d, i))
  {
  }

  lemma MapNewAccess(s: PM, d: int, v: int, d2: int, v2: int)
    requires Inv(s) && CanMapNew(s, d, v) && IsDir(s, d2) && 0 <= v2 < VPNS
    ensures AccessOf(MapNew(s, d, v), d2, v2) ==
        if v2 == v && (d2 == d || SharedSlot(s, v / ENTRIES))
        then var a := SlotRights(At(s.mem, d, v / ENTRIES)); Access(s.free[0], CanWrite(a), IsUser(a))
        else AccessOf(s, d2, v2)
  {
    hide InvX, Insert, CanInsert, CanWrite, IsUser;
    MapNewReady(s, d, v);
    InsertAccess(Pop(s), {s.free[0]}, d, s.free[0], v, PTE_W + PTE_P + PTE_U, d2, v2);
    assert CanWrite(PTE_W + PTE_P + PTE_U) && IsUser(PTE_W + PTE_P + PTE_U) by { AllRights(); }
    assert AccessOf(Pop(s), d2, v2) == AccessOf(s, d2, v2);
  }

  lemma AllRights()
    ensures CanWrite(PTE_P + PTE_W + PTE_U) && IsUser(PTE_P + PTE_W + PTE_U)
  {
  }

  lemma MapNewSlot(s: PM, d: int, v: int, d2: int, i: int)
    requires Inv(s) && CanMapNew(s, d, v) && IsDir(s, d2) && 0 <= i < ENTRIES
    ensures SlotRights(At(MapNew(s, d, v).mem, d2, i)) == SlotRights(At(s.mem, d2, i))
  {
    hide InvX, Insert, CanInsert, CanWalk;
    MapNewReady(s, d, v);
    InsertSlot(Pop(s), {s.free[0]}, d, s.free[0], v, PTE_W + PTE_P + PTE_U, d2, i);
  }

  /** mm_alloc, page by page: every page of the region is writable and for users, unless the slot
      it found there withholds it; no other address gets or loses a right. */
  lemma {:induction false} MmAllocAccess(s: PM, d: int, from: int, end: int, d2: int, v2: int)
    requires Inv(s) && CanMmAlloc(s, d, from, end) && IsDir(s, d2) && 0 <= v2 < VPNS
    ensures var s1 := MmAlloc(s, d, from, end);
      if from <= v2 < end && (d2 == d || SharedSlot(s, v2 / ENTRIES))
      then var a := SlotRights(At(s.mem, d2, v2 / ENTRIES));
           && AccessOf(s1, d2, v2).Access?
           && AccessOf(s1, d2, v2).write == CanWrite(a) && AccessOf(s1, d2, v2).user == IsUser(a)
      else AccessOf(s1, d2, v2) == AccessOf(s, d2, v2)
    decreases end - from
  {
    hide InvX, MapNew, CanMapNew, AccessOf, SharedSlot, CanWrite, IsUser, SlotRights;
    if from < end {
      var s1 := MapNew(s, d, from);
      MapNewKeeps(s, d, from);
      MapNewKernel(s, d, from);
      MapNewAccess(s, d, from, d2, v2);
      CanMapNewDir(s, d, from);
      MapNewSlot(s, d, from, d2, v2 / ENTRIES);
      if SharedSlot(s, v2 / ENTRIES) { SharedWords(s, {}, d, d2, v2 / ENTRIES); }
      MmAllocAccess(s1, d, from + 1, end, d2, v2);
    }
  }

  /** A region behind slots that are not filled is writable and for users, every page of it. */
  lemma MmAllocUser(s: PM, d: int, from: int, end: int, v: int)
    requires Inv(s) && CanMmAlloc(s, d, from, end) && from <= v < end && 0 <= v < VPNS && !Present(At(s.mem, d, v / ENTRIES))
    ensures var a := AccessOf(MmAlloc(s, d, from, end), d, v); a.Access? && a.write && a.user
  {
    hide Inv, MmAlloc, CanMmAlloc, CanWrite, IsUser, AccessOf;
    MmAllocDir(s, d, from, end);
    MmAllocAccess(s, d, from, end, d, v);
    AllRights();
  }

  lemma MmAllocDir(s: PM, d: int, from: int, end: int)
    requires CanMmAlloc(s, d, from, end) && from < end
    ensures IsDir(s, d)
  {
  }

  // ---- copy_pgdir and page_remove

  /** A copy has the rights of its source, slot and entry alike. */
  lemma CopyAccess(s: PM, dst: int, src: int, v: int, full: bool)
    requires Inv(s) && CanCopyDir(s, dst, src, 0, full) && 0 <= v < VPNS && !Present(At(s.mem, dst, v / ENTRIES))
    ensures var a, b := AccessOf(s, src, v), AccessOf(CopyDir(s, dst, src, 0), dst, v);
      && (a.Access? <==> b.Access?)
      && (a.Access? ==> b.write == a.write && b.user == a.user && b.frame in s.free)
  {
    hide InvX, CopyDir, Grows, CanCopyDir, Translate, CanWrite, IsUser, EntryCopied;
    CopyTranslate(s, dst, src, v, full);
    CopyDirCopies(s, dst, src, 0, full);
    assert SlotCopied(s, CopyDir(s, dst, src, 0), dst, src, v / ENTRIES, full);
    MappedSlot(s, src, v);
  }

  /** Removing takes the access to that page number, wherever the slot is shared, and no other. */
  lemma RemoveAccess(s: PM, d: int, v: int, d2: int, v2: int)
    requires Inv(s) && CanRemove(s, d, v) && IsDir(s, d2) && 0 <= v2 < VPNS
    ensures AccessOf(Remove(s, d, v), d2, v2) ==
        if v2 == v && (d2 == d || SharedSlot(s, v / ENTRIES)) then NoAccess else AccessOf(s, d2, v2)
  {
    hide InvX, Remove, Translate, CanWrite, IsUser;
    RemoveTranslate(s, d, v, d2, v2);
    RemoveSlots(s, d, v, d2, v2 / ENTRIES);
  }

  lemma RemoveSlots(s: PM, d: int, v: int, d2: int, i: int)
    requires Inv(s) && CanRemove(s, d, v) && IsDir(s, d2)
    ensures At(Remove(s, d, v).mem, d2, i) == At(s.mem, d2, i)
  {
    hide FreeOk, CountsOk, SlotsOk, OwnersOk, SharedOk, LeavesOk;
    RemoveReady(s, d, v);
    TablePlain(s, TableOf(s, d, v));
  }

  // ---- whole runs: no user code in low memory

  /** The table was made for the kernel's own directory. */
  ghost predicate KernTable(s: PM, t: int) { t in s.tables && s.tables[t].page == s.kern }

  /** The entry maps a page below the managed ones: the kernel image or a device. */
  predicate LowWord(w: Word) { Present(w) && Frame(w) < FIRST_MANAGED }

  /** The kernel gives no user code low memory: its slots of the linear map withhold it, and so
      do the low entries of its only table, which is the first page that boot took. */
  ghost predicate Sealed(s: PM) {
    && (forall t :: KernTable(s, t) ==> t == FIRST_MANAGED)
    && (forall i :: LowWord(At(s.mem, s.kern, i)) ==> !IsUser(Attr(At(s.mem, s.kern, i))))
    && (forall t, j :: KernTable(s, t) && LowWord(At(s.mem, t, j)) ==> !IsUser(Attr(At(s.mem, t, j))))
  }

  /** With the invariant that is enough: what user code can reach is a managed page. */
  lemma SealedMeans(s: PM, d: int, v: int)
    requires Inv(s) && Sealed(s) && IsDir(s, d) && 0 <= v < VPNS
    ensures AccessOf(s, d, v).Access? && AccessOf(s, d, v).user ==> AccessOf(s, d, v).frame >= FIRST_MANAGED
  {
    hide FreeOk, CountsOk, IsUser, CanWrite;
    var i := v / ENTRIES;
    if Translate(s, d, v).Mapped? {
      SlotTarget(s, d, i);
      var t := TableOf(s, d, v);
      if SharedSlot(s, i) {
        SharedWords(s, {}, s.kern, d, i);
      } else {
        assert IsOwn(s, d, i);
        assert t in s.tables && Present(At(s.mem, t, v % ENTRIES));
      }
    }
  }

  /** After page_init. */
  lemma BootSealed(s: PM, kt: int)
    requires Booted(s, kt)
    ensures Sealed(PageInit(s))
  {
    hide InvX, PageInit, Booted, IsUser, CanWrite;
    var s1 := PageInit(s);
    PageInitEstablishes(s, kt, 0);
    BootSlots(s, kt, 0);
    forall i | LowWord(At(s1.mem, s1.kern, i))
      ensures !IsUser(Attr(At(s1.mem, s1.kern, i)))
    {
      BootSlots(s, kt, i);
      BootedSlot(s, kt, i);
      assert !IsUser(PTE_P + PTE_W) by { NotUser(); }
    }
    forall t, j | KernTable(s1, t) && LowWord(At(s1.mem, t, j))
      ensures !IsUser(Attr(At(s1.mem, t, j)))
    {
      PageInitEstablishes(s, kt, j);
      assert Translate(s1, s1.kern, j) == Mapped(Frame(At(s1.mem, t, j)), Attr(At(s1.mem, t, j)));
      NotUser();
    }
  }

  lemma NotUser()
    ensures !IsUser(PTE_P + PTE_W)
  {
  }

  /** A step keeps the seal if it leaves low memory alone, makes no table for the kernel, and puts
      no low page into one. */
  ghost predicate Spares(s: PM, s1: PM) {
    && s1.kern == s.kern
    && (forall c, j :: c < FIRST_MANAGED ==> At(s1.mem, c, j) == At(s.mem, c, j))
    && (forall t :: KernTable(s1, t) ==> KernTable(s, t))
    && (forall t, j :: KernTable(s1, t) ==> At(s1.mem, t, j) == At(s.mem, t, j) || !LowWord(At(s1.mem, t, j)))
  }

  lemma SparesSealed(s: PM, s1: PM)
    requires Spares(s, s1) && Sealed(s) && 0 <= s.kern < FIRST_MANAGED
    ensures Sealed(s1)
  {
  }

  lemma SparesTrans(s: PM, s1: PM, s2: PM)
    requires Spares(s, s1) && Spares(s1, s2)
    ensures Spares(s, s2)
  {
    hide LowWord;
  }

  lemma SparesSame(s: PM)
    ensures Spares(s, s)
  {
  }

  /** The kernel's table lies before every page that is taken. */
  ghost predicate AllBehind(s: PM) {
    forall f :: f in s.free ==> FIRST_MANAGED <= f && forall t :: KernTable(s, t) ==> t < f
  }

  lemma SealedBehind(s: PM)
    requires Inv(s) && Sealed(s)
    ensures AllBehind(s) && AllBehind(Pop(s))
  {
    hide CountsOk, SlotsOk, OwnersOk, SharedOk, LeavesOk, LowWord;
    forall f, t | f in s.free && KernTable(s, t)
      ensures t < f
    {
      TableLive(s, t);
    }
    forall f | f in Pop(s).free
      ensures FIRST_MANAGED <= f && forall t :: KernTable(Pop(s), t) ==> t < f
    {
      assert f in s.free;
      assert forall t :: KernTable(Pop(s), t) ==> KernTable(s, t);
    }
  }

  lemma HeadBehind(s: PM)
    requires AllBehind(s) && s.free != []
    ensures FIRST_MANAGED <= s.free[0] && forall t :: KernTable(s, t) ==> t < s.free[0]
  {
    assert s.free[0] in s.free;
  }

  /** The shape of a directory and its tables, as far as it is needed here. */
  ghost predicate Frames(s: PM, d: int) {
    d in s.dirs && FIRST_MANAGED <= d && d != s.kern && (forall t :: t in s.tables ==> FIRST_MANAGED <= t && t != d)
  }

  lemma DirFrames(s: PM, d: int)
    requires Inv(s) && d in s.dirs
    ensures Frames(s, d) && Frames(Pop(s), d)
  {
    hide FreeOk, CountsOk, SlotsOk, OwnersOk, SharedOk, LeavesOk;
  }

  lemma SparesAddTable(s: PM, d: int, i: int, attr: int)
    requires AllBehind(s) && Frames(s, d)
    ensures Spares(s, AddTable(s, d, i, attr))
  {
    hide Zeroed, Pte, At, Put;
    if s.free != [] {
      var p := s.free[0];
      HeadBehind(s);
      ZeroedFrame(s.mem, p, s.width);
      var s1 := AddTable(s, d, i, attr);
      var m := Zeroed(s.mem, p, s.width);
      forall c, j | c < FIRST_MANAGED || KernTable(s1, c)
        ensures At(s1.mem, c, j) == At(s.mem, c, j)
      {
        assert KernTable(s1, c) ==> KernTable(s, c);
        assert c != d && c < p;
        PutElsewhere(m, d, i, Pte(p, attr), c, j);
        SamePageWord(m, s.mem, c, j);
      }
    }
  }

  lemma PutElsewhere(m: seq<Page>, d: int, i: int, w: Word, c: int, j: int)
    requires c != d
    ensures At(Put(m, d, i, w), c, j) == At(m, c, j)
  {
  }

  lemma SamePageWord(m: seq<Page>, m1: seq<Page>, c: int, j: int)
    requires |m| == |m1| && PageAt(m, c) == PageAt(m1, c)
    ensures At(m, c, j) == At(m1, c, j)
  {
  }

  lemma SparesWalk(s: PM, d: int, v: int)
    requires AllBehind(s) && Frames(s, d) && 0 <= v < VPNS
    ensures Spares(s, Walk(s, d, v))
  {
    hide Spares, AddTable;
    if Present(At(s.mem, d, v / ENTRIES)) { SparesSame(s); } else { SparesAddTable(s, d, v / ENTRIES, PTE_P + PTE_W + PTE_U); }
  }

  /** Where the slot is filled afterwards, it leads to no low page. */
  lemma WalkHigh(s: PM, d: int, v: int)
    requires AllBehind(s) && Frames(s, d) && 0 <= v < VPNS && |s.mem| == NPAGES && (s.free != [] ==> Managed(s.free[0]))
    requires Present(At(s.mem, d, v / ENTRIES)) ==> TableOf(s, d, v) >= FIRST_MANAGED
    ensures Present(At(Walk(s, d, v).mem, d, v / ENTRIES)) ==> TableOf(Walk(s, d, v), d, v) >= FIRST_MANAGED
  {
    hide Zeroed;
    if !Present(At(s.mem, d, v / ENTRIES)) && s.free != [] {
      PteFields(s.free[0], PTE_P + PTE_W + PTE_U);
    }
  }

  lemma SparesInsert(s: PM, d: int, pp: int, v: int, perm: int)
    requires AllBehind(s) && Frames(s, d) && 0 <= v < VPNS && |s.mem| == NPAGES && (s.free != [] ==> Managed(s.free[0]))
    requires Present(At(s.mem, d, v / ENTRIES)) ==> TableOf(s, d, v) >= FIRST_MANAGED
    requires Managed(pp) && 0 <= perm < PGSIZE
    ensures Spares(s, Insert(s, d, pp, v, perm))
  {
    hide Walk, Pte;
    SparesWalk(s, d, v);
    WalkHigh(s, d, v);
    PteFields(pp, WithP(perm));
    var s1 := Walk(s, d, v);
    var t := TableOf(s1, d, v);
    if Present(At(s1.mem, d, v / ENTRIES)) {
      forall c, j | c != t || j != v % ENTRIES
        ensures At(Insert(s, d, pp, v, perm).mem, c, j) == At(s1.mem, c, j)
      {
      }
    }
  }

  lemma SparesMapNew(s: PM, d: int, v: int)
    requires Inv(s) && Sealed(s) && Mappable(s, d, v)
    ensures Spares(s, MapNew(s, d, v))
  {
    hide InvX, Insert, Spares, Sealed, AllBehind, Frames, KernTable;
    SealedBehind(s);
    InsertableParts(Pop(s), {s.free[0]}, d, s.free[0], v);
    DirFrames(s, d);
    FreeParts(s);
    SparesInsert(Pop(s), d, s.free[0], v, PTE_W + PTE_P + PTE_U);
    PopSpares(s, MapNew(s, d, v));
  }

  lemma PopSpares(s: PM, s1: PM)
    requires Spares(Pop(s), s1)
    ensures Spares(s, s1)
  {
  }

  lemma FreeParts(s: PM)
    requires Inv(s)
    ensures |s.mem| == NPAGES && forall i :: 0 <= i < |s.free| ==> Managed(s.free[i])
  {
    assert forall i :: 0 <= i < |s.free| ==> s.free[i] in s.free;
  }

  lemma InsertableParts(s: PM, held: set<int>, d: int, pp: int, v: int)
    requires Insertable(s, held, d, pp, v)
    ensures d in s.dirs && 0 <= v < VPNS && Managed(pp)
    ensures Present(At(s.mem, d, v / ENTRIES)) ==> TableOf(s, d, v) >= FIRST_MANAGED
  {
  }

  lemma {:induction false} SparesMmAlloc(s: PM, d: int, from: int, end: int)
    requires Inv(s) && Sealed(s) && SafeMmAlloc(s, d, from, end)
    ensures Spares(s, MmAlloc(s, d, from, end))
    decreases end - from
  {
    hide InvX, MapNew, Mappable, TableSafe, Spares, Sealed;
    if from < end {
      var s1 := MapNew(s, d, from);
      MapNewIff(s, d, from);
      SparesMapNew(s, d, from);
      SealedNext(s, s1);
      SparesMmAlloc(s1, d, from + 1, end);
      SparesTrans(s, s1, MmAlloc(s, d, from, end));
    } else {
      SparesSame(s);
    }
  }

  lemma SealedNext(s: PM, s1: PM)
    requires Inv(s) && Sealed(s) && Spares(s, s1)
    ensures Sealed(s1)
  {
    hide Sealed, Spares, FreeOk, CountsOk, Tree;
    SparesSealed(s, s1);
  }

  lemma SparesRemove(s: PM, d: int, v: int)
    requires Present(At(s.mem, d, v / ENTRIES)) ==> TableOf(s, d, v) >= FIRST_MANAGED
    ensures Spares(s, RemoveAt(s, d, v))
  {
  }

  /** Copying pages over a directory or a free page, and those behind it. */
  lemma SparesCopied(s: PM, p: int, src: int)
    requires FIRST_MANAGED <= p && forall t :: KernTable(s, t) ==> t < p
    ensures Spares(s, s.(mem := Copied(s.mem, p, src, s.width)))
  {
    hide Copied;
    CopiedFrame(s.mem, p, src, s.width);
    var m := Copied(s.mem, p, src, s.width);
    forall c, j | c < FIRST_MANAGED || KernTable(s, c)
      ensures At(m, c, j) == At(s.mem, c, j)
    {
      assert PageAt(m, c) == PageAt(s.mem, c);
    }
  }

  lemma SparesNewDir(s: PM)
    requires Inv(s) && Sealed(s)
    ensures Spares(s, NewDir(s))
  {
    hide InvX, Zeroed, Copied, Sealed, LowWord;
    SealedBehind(s);
    if s.free != [] {
      var p := s.free[0];
      HeadBehind(s);
      ZeroedFrame(s.mem, p, s.width);
      CopiedFrame(Zeroed(s.mem, p, s.width), p, s.kern, s.width);
      forall c, j | c < FIRST_MANAGED || KernTable(s, c)
        ensures At(NewDir(s).mem, c, j) == At(s.mem, c, j)
      {
        assert PageAt(NewDir(s).mem, c) == PageAt(s.mem, c);
      }
    }
  }

  lemma SparesCopyEntry(s: PM, t: int, st: int, i: int)
    requires Inv(s) && Sealed(s) && SafeEntry(s, t, st, i)
    ensures Spares(s, CopyEntry(s, t, st, i))
  {
    hide FreeOk, CountsOk, SlotsOk, OwnersOk, SharedOk, LeavesOk, Survives, Copied, Sealed, Pte, EntryPlaced;
    if Present(At(s.mem, st, i)) {
      SealedBehind(s);
      FreeParts(s);
      var p, e := s.free[0], At(s.mem, st, i);
      HeadBehind(s);
      TableLive(s, t);
      var s1 := s.(mem := Put(s.mem, t, i, Pte(p, Attr(e))));
      PteFields(p, Attr(e));
      assert Spares(s, s1);
      SparesCopied(s1, p, Frame(e));
      SparesTrans(s, s1, s1.(mem := Copied(s1.mem, p, Frame(e), s.width)));
    } else {
      SparesSame(s);
    }
  }

  lemma {:induction false} SparesCopyTable(s: PM, t: int, st: int, i: int)
    requires Inv(s) && Sealed(s) && SafeCopyTable(s, t, st, i)
    ensures Spares(s, CopyTable(s, t, st, i))
    decreases ENTRIES - i
  {
    hide InvX, CopyEntry, SafeEntry, Spares, Sealed;
    if i < ENTRIES {
      var s1 := CopyEntry(s, t, st, i);
      SafeEntryKeeps(s, t, st, i);
      SparesCopyEntry(s, t, st, i);
      SealedNext(s, s1);
      SparesCopyTable(s1, t, st, i + 1);
      SparesTrans(s, s1, CopyTable(s, t, st, i));
    } else {
      SparesSame(s);
    }
  }

  lemma SparesCopySlot(s: PM, dst: int, src: int, i: int)
    requires Inv(s) && Sealed(s) && SafeSlot(s, dst, src, i)
    ensures Spares(s, CopySlot(s, dst, src, i))
  {
    hide InvX, AddTable, BlankBehind, Reach, Spares, Sealed, SafeCopyTable, CopyTable, AllBehind, Frames;
    if Copies(s, dst, src, i) {
      var e := At(s.mem, src, i);
      var s1 := AddTable(s, dst, i, Attr(e));
      AddTableIff(s, {}, dst, i, Attr(e));
      SealedBehind(s);
      DirFrames(s, dst);
      SparesAddTable(s, dst, i, Attr(e));
      SealedNext(s, s1);
      SparesCopyTable(s1, Frame(At(s1.mem, dst, i)), Frame(e), 0);
      SparesTrans(s, s1, CopySlot(s, dst, src, i));
    } else {
      SparesSame(s);
    }
  }

  lemma {:induction false} SparesCopyDir(s: PM, dst: int, src: int, i: int)
    requires Inv(s) && Sealed(s) && SafeCopyDir(s, dst, src, i)
    ensures Spares(s, CopyDir(s, dst, src, i))
    decreases ENTRIES - i
  {
    hide InvX, CopySlot, SafeSlot, Spares, Sealed;
    if i < ENTRIES {
      var s1 := CopySlot(s, dst, src, i);
      SafeSlotKeeps(s, dst, src, i);
      SparesCopySlot(s, dst, src, i);
      SealedNext(s, s1);
      SparesCopyDir(s1, dst, src, i + 1);
      SparesTrans(s, s1, CopyDir(s, dst, src, i));
    } else {
      SparesSame(s);
    }
  }

  lemma SparesThread(s: PM, son: int, cur: int, user: bool)
    requires Inv(s) && Sealed(s) && son in s.dirs && cur in s.dirs && NoOwnTables(s, cur)
    ensures Spares(s, MakeThread(s, son, cur, user))
  {
    hide InvX, CopyDir, Copied, NoOwnTables, Spares, LowWord;
    if user { NothingToCopy(s, son, cur, 0); }
    DirFrames(s, son);
    SparesCopied(s, son, cur);
  }

  lemma SparesFreeDir(s: PM, d: int)
    requires Inv(s) && d in s.dirs
    ensures Spares(s, FreeDir(s, d, 0))
  {
    hide InvX, FreeDir, LowWord;
    FreeDirKeeps(s, d, 0);
    DirFrames(s, d);
    var s1 := FreeDir(s, d, 0);
    forall c, j | c != d
      ensures At(s1.mem, c, j) == At(s.mem, c, j)
    {
      assert PageAt(s1.mem, c) == PageAt(s.mem, c);
    }
  }

  lemma StepSpares(s: PM, op: Op)
    requires Inv(s) && Sealed(s) && Guard(s, op)
    ensures Spares(s, Apply(s, op))
  {
    hide InvX, Sealed, Spares, NewDir, MmAlloc, Insert, RemoveAt, CopyDir, FreeDir, MakeThread, NoOwnTables, SparedBehind, CanCopyDir, Removable, SafeCopyDir, SafeMmAlloc, SafeNewDir, TableSafe, Insertable, AllBehind, Frames;
    match op
    case OpNewDir => SparesNewDir(s);
    case OpMmAlloc(d, va, len) => SparesMmAlloc(s, d, PageDown(va), PageUp((va + len) % TWO_32));
    case OpInsert(d, pp, v, perm) =>
      InsertableParts(s, {}, d, pp, v);
      SealedBehind(s);
      DirFrames(s, d);
      FreeParts(s);
      SparesInsert(s, d, pp, v, perm);
    case OpRemove(d, v) => SparesRemove(s, d, v);
    case OpCopy(dst, src) => SparesCopyDir(s, dst, src, 0);
    case OpThread(son, cur, user) => SparesThread(s, son, cur, user);
    case OpFree(d) => SparesFreeDir(s, d);
  }

  lemma {:induction false} RunSealed(trace: seq<PM>, ops: seq<Op>, n: nat)
    requires IsRun(trace, ops) && Inv(trace[0]) && Sealed(trace[0]) && n <= |ops|
    ensures Inv(trace[n]) && Sealed(trace[n])
  {
    hide Inv, Sealed, Guard, Apply;
    if n > 0 {
      RunSealed(trace, ops, n - 1);
      StepKeeps(trace[n - 1], ops[n - 1]);
      StepSpares(trace[n - 1], ops[n - 1]);
      SealedNext(trace[n - 1], trace[n]);
    }
  }

  /** The protection result: in every state of every run from boot, whatever the pages that an
      operation overwrites behind the one it takes, no directory gives user code access to a page
      of the kernel image or a device. */
  lemma NoUserLow(s0: PM, kt: int, trace: seq<PM>, ops: seq<Op>, n: nat, d: int, v: int)
    requires Booted(s0, kt) && IsRun(trace, ops) && trace[0] == PageInit(s0) && n <= |ops|
    requires IsDir(trace[n], d) && 0 <= v < VPNS
    ensures var a := AccessOf(trace[n], d, v); a.Access? && a.user ==> a.frame >= FIRST_MANAGED
  {
    hide InvX, PageInit, Booted, Sealed, AccessOf;
    PageInitEstablishes(s0, kt, 0);
    BootSealed(s0, kt);
    RunSealed(trace, ops, n);
    SealedMeans(trace[n], d, v);
  }
}
