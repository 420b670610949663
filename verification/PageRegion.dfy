/** mm_alloc over a whole region, and the one case in which page_insert spoils a count. */
module PageRegion {
  import opened Sequences
  import opened Mmu
  import opened PageSpec
  import opened PageInvariant
  import opened PageSteps
  import opened PageMapping

  /** Every round of the loop finds the pages it needs. */
  ghost predicate CanMmAlloc(s: PM, d: int, from: int, end: int)
    decreases end - from
  {
    from < end ==> CanMapNew(s, d, from) && CanMmAlloc(MapNew(s, d, from), d, from + 1, end)
  }

  lemma {:induction false} MmAllocKeeps(s: PM, d: int, from: int, end: int)
    requires Inv(s) && CanMmAlloc(s, d, from, end)
    ensures Inv(MmAlloc(s, d, from, end))
    ensures MmAlloc(s, d, from, end).kern == s.kern && MmAlloc(s, d, from, end).dirs == s.dirs
    decreases end - from
  {
    hide InvX, MapNew, CanMapNew;
    if from < end {
      MapNewKeeps(s, d, from);
      MapNewKernel(s, d, from);
      MmAllocKeeps(MapNew(s, d, from), d, from + 1, end);
    }
  }

  /** An exclusive mapping outside the region stays exclusive. */
  lemma MapNewExclusive(s: PM, d: int, v: int, v0: int)
    requires Inv(s) && CanMapNew(s, d, v) && 0 <= v0 < VPNS && v0 != v
    requires Exclusive(s, d, v0)
    ensures Translate(MapNew(s, d, v), d, v0) == Translate(s, d, v0)
    ensures RefAt(MapNew(s, d, v).refs, Translate(s, d, v0).frame) == 1
  {
    hide Inv, MapNew, Translate;
    var f := Translate(s, d, v0).frame;
    MapNewTranslate(s, d, v, d, v0);
    if f in s.free {
      FreeIsUncounted(s, f);
    }
    if Translate(s, d, v).Mapped? {
      MappedTable(s, d, v);
      TwoMappings(s, d, v0, v);
    }
    MapNewRefs(s, d, v, f);
  }

  lemma FreeIsUncounted(s: PM, f: int)
    requires Inv(s) && f in s.free
    ensures RefAt(s.refs, f) == 0
  {
  }

  lemma MappedTable(s: PM, d: int, v: int)
    requires CanMapNew(s, d, v) && Translate(s, d, v).Mapped?
    ensures TableOf(s, d, v) >= FIRST_MANAGED
  {
  }

  /** The table of a mapped address is still the one it was, or a later one is as good. */
  lemma MapNewTable(s: PM, d: int, v: int, v0: int)
    requires Inv(s) && CanMapNew(s, d, v) && 0 <= v0 < VPNS
    requires Present(At(s.mem, d, v0 / ENTRIES)) || v0 == v
    ensures Present(At(MapNew(s, d, v).mem, d, v0 / ENTRIES))
    ensures v0 == v ==> TableOf(MapNew(s, d, v), d, v0) >= FIRST_MANAGED
    ensures v0 != v ==> TableOf(MapNew(s, d, v), d, v0) == TableOf(s, d, v0)
  {
    hide InvX, Insert, Unlinked, CanReplace;
    MapNewReady(s, d, v);
    var p, u := s.free[0], Pop(s);
    var s1 := Walk(u, d, v);
    var t := TableOf(s1, d, v);
    InsertIsReplace(u, {p}, d, p, v, PTE_W + PTE_P + PTE_U);
    MapNewWalked(u, {p}, d, v);
    TablePlain(s1, t);
    ReplaceOneEntry(s1, t, v % ENTRIES, p, WithP(PTE_W + PTE_P + PTE_U));
    if v0 != v {
      WalkSlots(u, {p}, d, v, v0 / ENTRIES);
    }
  }

  lemma WalkSlots(u: PM, held: set<int>, d: int, v: int, i: int)
    requires InvX(u, held, {}) && CanWalk(u, d, v)
    requires Present(At(u.mem, d, i))
    ensures At(Walk(u, d, v).mem, d, i) == At(u.mem, d, i)
  {
    hide FreeOk, CountsOk, SlotsOk, OwnersOk, SharedOk, LeavesOk;
    WalkKeeps(u, held, d, v);
  }

  lemma MapNewMakesExclusive(s: PM, d: int, v: int)
    requires Inv(s) && CanMapNew(s, d, v)
    ensures Exclusive(MapNew(s, d, v), d, v)
    ensures Translate(MapNew(s, d, v), d, v) == Mapped(s.free[0], PTE_P + PTE_W + PTE_U)
  {
    hide Inv, InvX, MapNew, Translate;
    MapNewTranslate(s, d, v, d, v);
    MapNewTable(s, d, v, v);
    MapNewFresh(s);
    MapNewRefs(s, d, v, s.free[0]);
  }

  lemma MapNewKeepsExclusive(s: PM, d: int, v: int, v0: int)
    requires Inv(s) && CanMapNew(s, d, v) && 0 <= v0 < VPNS && v0 != v && Exclusive(s, d, v0)
    ensures Exclusive(MapNew(s, d, v), d, v0) && Translate(MapNew(s, d, v), d, v0) == Translate(s, d, v0)
  {
    hide Inv, InvX, MapNew;
    MapNewExclusive(s, d, v, v0);
    MapNewTable(s, d, v, v0);
  }

  lemma {:induction false} MmAllocKeepsExclusive(s: PM, d: int, from: int, end: int, v0: int)
    requires Inv(s) && CanMmAlloc(s, d, from, end) && 0 <= v0 < VPNS && !(from <= v0 < end)
    requires Exclusive(s, d, v0)
    ensures Exclusive(MmAlloc(s, d, from, end), d, v0)
    decreases end - from
  {
    hide InvX, MapNew, CanMapNew, Exclusive;
    if from < end {
      MapNewKeeps(s, d, from);
      MapNewKeepsExclusive(s, d, from, v0);
      MmAllocKeepsExclusive(MapNew(s, d, from), d, from + 1, end, v0);
    }
  }

  // ---- if one page is one page, two free pages for each page of the region are enough

  /** The region lies in slots that the kernel directory does not fill. */
  ghost predicate UserRegion(s: PM, d: int, from: int, end: int) {
    d in s.dirs && 0 <= from && end <= VPNS && forall v :: from <= v < end ==> !SharedSlot(s, v / ENTRIES)
  }

  lemma EnoughForPage(s: PM, d: int, v: int)
    requires Inv(s) && s.width == 1 && d in s.dirs && 0 <= v < VPNS && !SharedSlot(s, v / ENTRIES) && |s.free| >= 2
    ensures CanMapNew(s, d, v)
    ensures |MapNew(s, d, v).free| >= |s.free| - 2 && MapNew(s, d, v).width == 1
  {
    hide CountsOk, SlotsOk, OwnersOk, SharedOk;
    assert Managed(s.free[1]);
    OnePageFits(Pop(s)) by { assert Shape(s); }
    if Present(At(s.mem, d, v / ENTRIES)) {
      SlotTarget(s, d, v / ENTRIES);
      UserTable(s, d, v / ENTRIES);
    }
  }

  lemma UserTable(s: PM, d: int, i: int)
    requires Shape(s) && SlotsOk(s) && DirsOk(s) && d in s.dirs && 0 <= i < ENTRIES && Present(At(s.mem, d, i)) && !SharedSlot(s, i)
    requires d != s.kern
    ensures var t := Frame(At(s.mem, d, i)); t in s.tables && s.tables[t].page == d && Managed(t)
  {
    assert IsOwn(s, d, i);
  }

  lemma {:induction false} EnoughForRegion(s: PM, d: int, from: int, end: int)
    requires Inv(s) && s.width == 1 && UserRegion(s, d, from, end) && |s.free| >= 2 * (end - from)
    ensures CanMmAlloc(s, d, from, end)
    decreases end - from
  {
    hide InvX, MapNew, CanMapNew, Translate;
    if from < end {
      EnoughForPage(s, d, from);
      MapNewKeeps(s, d, from);
      MapNewKernel(s, d, from);
      EnoughForRegion(MapNew(s, d, from), d, from + 1, end);
    }
  }

  /** The refinement of mm_alloc, for every directory d2: page numbers outside the region
      translate as before; inside it, d and every directory that shares the slot translate
      to the same present, writable user page. */
  lemma {:induction false} MmAllocTranslate(s: PM, d: int, from: int, end: int, d2: int, v2: int)
    requires Inv(s) && CanMmAlloc(s, d, from, end) && IsDir(s, d2) && 0 <= v2 < VPNS
    ensures var s1 := MmAlloc(s, d, from, end);
      if from <= v2 < end && (d2 == d || SharedSlot(s, v2 / ENTRIES))
      then Translate(s1, d2, v2) == Translate(s1, d, v2)
           && Translate(s1, d, v2).Mapped? && Translate(s1, d, v2).attr == PTE_P + PTE_W + PTE_U
      else Translate(s1, d2, v2) == Translate(s, d2, v2)
    decreases end - from
  {
    hide InvX, MapNew, CanMapNew, Translate, SharedSlot;
    if from < end {
      var s1 := MapNew(s, d, from);
      MapNewKeeps(s, d, from);
      MapNewKernel(s, d, from);
      MapNewTranslate(s, d, from, d2, v2);
      CanMapNewDir(s, d, from);
      MapNewTranslate(s, d, from, d, v2);
      MmAllocTranslate(s1, d, from + 1, end, d2, v2);
      MmAllocTranslate(s1, d, from + 1, end, d, v2);
    }
  }

  lemma CanMapNewDir(s: PM, d: int, v: int)
    requires CanMapNew(s, d, v)
    ensures d in s.dirs && 0 <= v < VPNS
  {
  }

  /** The pages mm_alloc maps are mapped once each, so they are pairwise distinct. */
  lemma {:induction false} MmAllocExclusive(s: PM, d: int, from: int, end: int, v: int)
    requires Inv(s) && CanMmAlloc(s, d, from, end) && from <= v < end
    ensures 0 <= v < VPNS && Exclusive(MmAlloc(s, d, from, end), d, v)
    decreases end - from
  {
    hide InvX, MapNew, CanMapNew, Exclusive;
    MapNewKeeps(s, d, from);
    CanMapNewDir(s, d, from);
    if v == from {
      MapNewMakesExclusive(s, d, from);
      MmAllocKeepsExclusive(MapNew(s, d, from), d, from + 1, end, v);
    } else {
      MmAllocExclusive(MapNew(s, d, from), d, from + 1, end, v);
    }
  }

  lemma MmAllocDistinct(s: PM, d: int, from: int, end: int, v: int, v2: int)
    requires Inv(s) && CanMmAlloc(s, d, from, end) && from <= v < end && from <= v2 < end && v != v2
    ensures Translate(MmAlloc(s, d, from, end), d, v).Mapped? && Translate(MmAlloc(s, d, from, end), d, v2).Mapped?
    ensures Translate(MmAlloc(s, d, from, end), d, v).frame != Translate(MmAlloc(s, d, from, end), d, v2).frame
  {
    hide InvX, MmAlloc, Translate, CanMapNew;
    MmAllocKeeps(s, d, from, end);
    MmAllocExclusive(s, d, from, end, v);
    MmAllocExclusive(s, d, from, end, v2);
    CanMapNewDir(s, d, from);
    TwoMappings(MmAlloc(s, d, from, end), d, v, v2);
  }

  // ---- mapping a page again where it is mapped already

  /** page_insert of a page at the address where it is already mapped raises the count
      without adding a reference. */
  lemma ReinsertDrifts(s: PM, d: int, v: int, perm: int)
    requires Inv(s) && CanRemove(s, d, v) && 0 <= perm < PGSIZE
    ensures !Inv(Insert(s, d, Translate(s, d, v).frame, v, perm))
  {
    hide FreeOk, SlotsOk, OwnersOk, SharedOk, LeavesOk, Expected;
    var pp, s1, t, i := Translate(s, d, v).frame, Insert(s, d, Translate(s, d, v).frame, v, perm), TableOf(s, d, v), v % ENTRIES;
    RemoveReady(s, d, v);
    TablePlain(s, t);
    PteFields(pp, WithP(perm));
    ReinsertCount(s, s1, t, i, pp, WithP(perm));
  }

  lemma ReinsertCount(s: PM, s1: PM, t: int, i: int, pp: int, attr: int)
    requires Shape(s) && CountsOk(s, {}) && PlainTable(s, t) && CanUnlink(s, t, i, pp)
    requires 0 <= attr < PGSIZE && attr % 2 == 1
    requires s1 == Link(s, t, i, pp, attr)
    ensures !CountsOk(s1, {})
  {
    hide Expected;
    PteFields(pp, attr);
    LeafOneWord(s, s1, t, i, Pte(pp, attr));
    OneWordCount(s, s1, Slot(t, i), Pte(pp, attr), {}, pp);
    assert RefAt(s.refs, pp) == Expected(s, {}, pp);
    assert RefAt(s1.refs, pp) == Expected(s1, {}, pp) + 1;
  }

  /** Exactly when page_insert keeps the counts: the guard of its same-page branch must be
      false. */
  lemma InsertKeepsIff(s: PM, d: int, pp: int, v: int, perm: int)
    requires Inv(s) && CanWalk(s, d, v) && 0 <= perm < PGSIZE
    requires Managed(pp) && pp !in s.dirs && pp !in s.tables && RefAt(s.refs, pp) > 0
    requires Translate(s, d, v).Mapped? ==> Managed(Translate(s, d, v).frame)
    ensures Inv(Insert(s, d, pp, v, perm)) <==> !(Translate(s, d, v).Mapped? && Translate(s, d, v).frame == pp)
  {
    hide InvX, Insert;
    if Translate(s, d, v).Mapped? && Translate(s, d, v).frame == pp {
      ReinsertDrifts(s, d, v, perm);
    } else {
      CountedNotFree(s, pp);
      InsertKeeps(s, {}, d, pp, v, perm);
      assert {} - {pp} == {};
    }
  }

  lemma CountedNotFree(s: PM, f: int)
    requires Inv(s) && Managed(f) && RefAt(s.refs, f) > 0
    ensures f !in s.free
  {
  }
}
