/** The operations of a run under exact guards: what each page taken on the way has to meet so
    that the invariant holds after it, and no more. */
module PageExact {
  import opened Mmu
  import opened PageSpec
  import opened PageInvariant
  import opened PageSteps
  import opened PageMapping
  import opened PageRegion
  import opened PageOverwrite
  import opened PageCopy
  import opened PageTeardown
  import opened PageOverrun

  // ---- page_insert

  /** What page_insert asks for apart from the table: a page in use or in hand, which is not
      what is mapped there now. */
  ghost predicate Insertable(s: PM, held: set<int>, d: int, pp: int, v: int) {
    && d in s.dirs && 0 <= v < VPNS
    && Managed(pp) && pp !in s.dirs && pp !in s.tables && pp !in s.free && (pp in held || RefAt(s.refs, pp) > 0)
    && (Translate(s, d, v).Mapped? ==> Managed(Translate(s, d, v).frame) && Translate(s, d, v).frame != pp)
    && (if Present(At(s.mem, d, v / ENTRIES)) then TableOf(s, d, v) >= FIRST_MANAGED else Reach(s))
  }

  /** The table is there, or the one that will be made harms nothing. */
  ghost predicate TableSafe(s: PM, d: int, v: int) { Present(At(s.mem, d, v / ENTRIES)) || BlankBehind(s) }

  /** page_insert keeps the invariant if and only if its table is safe. */
  lemma InsertIff(s: PM, held: set<int>, d: int, pp: int, v: int, perm: int)
    requires InvX(s, held, {}) && Insertable(s, held, d, pp, v) && 0 <= perm < PGSIZE
    ensures InvX(Insert(s, d, pp, v, perm), held - {pp}, {}) <==> TableSafe(s, d, v)
  {
    hide InvX, Insert, BlankBehind, Survives, Only, TableWordsAre, Translate;
    if Present(At(s.mem, d, v / ENTRIES)) {
      InsertKeeps(s, held, d, pp, v, perm);
    } else {
      InsertFresh(s, held, d, pp, v, perm);
    }
  }

  lemma InsertFresh(s: PM, held: set<int>, d: int, pp: int, v: int, perm: int)
    requires InvX(s, held, {}) && Insertable(s, held, d, pp, v) && 0 <= perm < PGSIZE && !Present(At(s.mem, d, v / ENTRIES))
    ensures InvX(Insert(s, d, pp, v, perm), held - {pp}, {}) <==> BlankBehind(s)
  {
    hide InvX, Insert, BlankBehind, Survives, Only, TableWordsAre, Clear;
    var p := s.free[0];
    NarrowFits(s, held);
    XShape(s, held);
    var x0 := Insert(Narrow(s), d, pp, v, perm);
    var x, y := Widen(x0, s.width), Insert(s, d, pp, v, perm);
    InsertKeeps(Narrow(s), held, d, pp, v, perm);
    WidthInv(x0, held - {pp}, s.width);
    FreshOverwrite(s, held, d, pp, v, perm);
    OverwriteIff(x, held - {pp}, y.mem, p + 1, p + s.width);
    BlankSurvives(s, held, x, y.mem, d, v / ENTRIES);
  }

  /** With a new table, page_insert is that table with one entry. */
  lemma InsertParts(s: PM, d: int, pp: int, v: int, perm: int)
    requires Shape(s) && !Present(At(s.mem, d, v / ENTRIES)) && s.free != [] && Managed(s.free[0])
    requires 0 <= d < NPAGES && d != s.free[0] && 0 <= v < VPNS
    ensures var a := AddTable(s, d, v / ENTRIES, PTE_P + PTE_W + PTE_U);
      Insert(s, d, pp, v, perm) ==
        a.(mem := Put(a.mem, s.free[0], v % ENTRIES, Pte(pp, WithP(perm))), refs := AddRef(a.refs, pp, 1))
  {
    hide Pte;
    var a := AddTable(s, d, v / ENTRIES, PTE_P + PTE_W + PTE_U);
    PteFields(s.free[0], PTE_P + PTE_W + PTE_U);
    BlankAt(v % ENTRIES);
    assert At(a.mem, d, v / ENTRIES) == Pte(s.free[0], PTE_P + PTE_W + PTE_U);
    assert PageAt(a.mem, s.free[0]) == ZeroPage();
  }

  lemma FreshOverwrite(s: PM, held: set<int>, d: int, pp: int, v: int, perm: int)
    requires InvX(s, held, {}) && Insertable(s, held, d, pp, v) && !Present(At(s.mem, d, v / ENTRIES)) && Managed(s.free[0])
    ensures var x, y := Widen(Insert(Narrow(s), d, pp, v, perm), s.width), Insert(s, d, pp, v, perm);
      && y == x.(mem := y.mem) && Only(x, y.mem, s.free[0] + 1, s.free[0] + s.width)
      && TableWordsAre(s, x, y.mem, d, v / ENTRIES)
  {
    hide InvX, Insert, AddTable, Pte;
    XShape(s, held);
    ContainerIsLive(s, held, {}, d);
    InsertParts(s, d, pp, v, perm);
    InsertParts(Narrow(s), d, pp, v, perm);
    TableOverwrite(s, d, v / ENTRIES, PTE_P + PTE_W + PTE_U);
    TableWords(s, held, d, v / ENTRIES, PTE_P + PTE_W + PTE_U);
    SizesSame(s, d, v / ENTRIES);
    var a, ax := AddTable(s, d, v / ENTRIES, PTE_P + PTE_W + PTE_U), AddTable(Narrow(s), d, v / ENTRIES, PTE_P + PTE_W + PTE_U);
    PutSame(a.mem, ax.mem, s.free[0], v % ENTRIES, Pte(pp, WithP(perm)));
    assert Put(ax.mem, s.free[0], v % ENTRIES, Pte(pp, WithP(perm))) == Insert(Narrow(s), d, pp, v, perm).mem;
  }

  /** One and the same store leaves equal pages equal, and all other pages as they are. */
  lemma PutSame(m: seq<Page>, m1: seq<Page>, c: int, i: int, w: Word)
    requires |m| == |m1|
    ensures forall f :: PageAt(m, f) == PageAt(m1, f) ==> PageAt(Put(m, c, i, w), f) == PageAt(Put(m1, c, i, w), f)
    ensures forall f, j :: f != c ==> At(Put(m, c, i, w), f, j) == At(m, f, j) && At(Put(m1, c, i, w), f, j) == At(m1, f, j)
  {
  }

  lemma SizesSame(s: PM, d: int, i: int)
    requires s.free != []
    ensures |AddTable(s, d, i, PTE_P + PTE_W + PTE_U).mem| == |s.mem| == |AddTable(Narrow(s), d, i, PTE_P + PTE_W + PTE_U).mem|
  {
  }

  // ---- mm_alloc

  ghost predicate Mappable(s: PM, d: int, v: int) {
    s.free != [] && Insertable(Pop(s), {s.free[0]}, d, s.free[0], v)
  }

  /** One round of mm_alloc keeps the invariant if and only if its table is safe. */
  lemma MapNewIff(s: PM, d: int, v: int)
    requires Inv(s) && Mappable(s, d, v)
    ensures Inv(MapNew(s, d, v)) <==> TableSafe(Pop(s), d, v)
  {
    hide InvX, Insert, Insertable, TableSafe;
    var p := s.free[0];
    PopKeeps(s, {});
    assert {} + {p} == {p} && {p} - {p} == {};
    InsertIff(Pop(s), {p}, d, p, v, PTE_W + PTE_P + PTE_U);
  }

  ghost predicate SafeMmAlloc(s: PM, d: int, from: int, end: int)
    decreases end - from
  {
    from < end ==> Mappable(s, d, from) && TableSafe(Pop(s), d, from) && SafeMmAlloc(MapNew(s, d, from), d, from + 1, end)
  }

  lemma {:induction false} SafeMmAllocKeeps(s: PM, d: int, from: int, end: int)
    requires Inv(s) && SafeMmAlloc(s, d, from, end)
    ensures Inv(MmAlloc(s, d, from, end))
    decreases end - from
  {
    hide InvX, MapNew, Mappable, TableSafe;
    if from < end {
      MapNewIff(s, d, from);
      SafeMmAllocKeeps(MapNew(s, d, from), d, from + 1, end);
    }
  }

  /** Every round finds a page and a place for it, whatever lies behind the tables it makes. */
  ghost predicate EveryMappable(s: PM, d: int, from: int, end: int)
    decreases end - from
  {
    from < end ==> Mappable(s, d, from) && EveryMappable(MapNew(s, d, from), d, from + 1, end)
  }

  /** The invariant holds before and after every round. */
  ghost predicate KeptThroughout(s: PM, d: int, from: int, end: int)
    decreases end - from
  {
    Inv(s) && (from < end ==> KeptThroughout(MapNew(s, d, from), d, from + 1, end))
  }

  /** The guard is exact for the whole of mm_alloc: it holds if and only if the invariant holds
      after every round. */
  lemma {:induction false} SafeMmAllocIff(s: PM, d: int, from: int, end: int)
    requires Inv(s) && EveryMappable(s, d, from, end)
    ensures SafeMmAlloc(s, d, from, end) <==> KeptThroughout(s, d, from, end)
    decreases end - from
  {
    hide Inv, MapNew, Mappable, TableSafe;
    if from < end {
      MapNewIff(s, d, from);
      if TableSafe(Pop(s), d, from) {
        SafeMmAllocIff(MapNew(s, d, from), d, from + 1, end);
      }
    }
  }

  // ---- copy_pgdir

  /** A page can be copied: what lies behind it survives. */
  ghost predicate SafeEntry(s: PM, t: int, st: int, i: int) {
    Present(At(s.mem, st, i)) ==>
      && EntryToCopy(s, t, st, i) && Reach(s)
      && Survives(s.(mem := EntryPlaced(s, t, st, i)), Copied(EntryPlaced(s, t, st, i), s.free[0], Frame(At(s.mem, st, i)), s.width),
                  s.free[0] + 1, s.free[0] + s.width)
  }

  ghost predicate SafeCopyTable(s: PM, t: int, st: int, i: int)
    decreases ENTRIES - i
  {
    i < ENTRIES ==> SafeEntry(s, t, st, i) && SafeCopyTable(CopyEntry(s, t, st, i), t, st, i + 1)
  }

  lemma {:induction false} SafeCopyTableKeeps(s: PM, t: int, st: int, i: int)
    requires Inv(s) && SafeCopyTable(s, t, st, i)
    ensures Inv(CopyTable(s, t, st, i))
    decreases ENTRIES - i
  {
    hide InvX, CopyEntry, SafeEntry;
    if i < ENTRIES {
      SafeEntryKeeps(s, t, st, i);
      SafeCopyTableKeeps(CopyEntry(s, t, st, i), t, st, i + 1);
    }
  }

  lemma SafeEntryKeeps(s: PM, t: int, st: int, i: int)
    requires Inv(s) && SafeEntry(s, t, st, i)
    ensures Inv(CopyEntry(s, t, st, i))
  {
    hide InvX, Survives, EntryToCopy, EntryPlaced, Copied;
    if Present(At(s.mem, st, i)) {
      CopyEntryIff(s, t, st, i);
    }
  }

  /** A slot can be copied: its table is safe, and so are the pages in it. */
  ghost predicate SafeSlot(s: PM, dst: int, src: int, i: int) {
    Copies(s, dst, src, i) ==>
      var e := At(s.mem, src, i);
      && TableSlot(s, dst, i, Attr(e)) && Reach(s) && BlankBehind(s)
      && var s1 := AddTable(s, dst, i, Attr(e)); SafeCopyTable(s1, Frame(At(s1.mem, dst, i)), Frame(e), 0)
  }

  ghost predicate SafeCopyDir(s: PM, dst: int, src: int, i: int)
    decreases ENTRIES - i
  {
    i < ENTRIES ==> SafeSlot(s, dst, src, i) && SafeCopyDir(CopySlot(s, dst, src, i), dst, src, i + 1)
  }

  lemma {:induction false} SafeCopyDirKeeps(s: PM, dst: int, src: int, i: int)
    requires Inv(s) && SafeCopyDir(s, dst, src, i)
    ensures Inv(CopyDir(s, dst, src, i))
    decreases ENTRIES - i
  {
    hide InvX, CopySlot, SafeSlot;
    if i < ENTRIES {
      SafeSlotKeeps(s, dst, src, i);
      SafeCopyDirKeeps(CopySlot(s, dst, src, i), dst, src, i + 1);
    }
  }

  lemma SafeSlotKeeps(s: PM, dst: int, src: int, i: int)
    requires Inv(s) && SafeSlot(s, dst, src, i)
    ensures Inv(CopySlot(s, dst, src, i))
  {
    hide InvX, AddTable, BlankBehind, TableSlot, Reach;
    if Copies(s, dst, src, i) {
      var e := At(s.mem, src, i);
      AddTableIff(s, {}, dst, i, Attr(e));
      var s1 := AddTable(s, dst, i, Attr(e));
      SafeCopyTableKeeps(s1, Frame(At(s1.mem, dst, i)), Frame(e), 0);
    }
  }

  // ---- pcb_create

  /** A directory can be made: what lies behind it survives. */
  ghost predicate SafeNewDir(s: PM) {
    Clear(s)
    || (Reach(s) && s.kern + s.width <= FIRST_MANAGED
        && Survives(s, Copied(s.mem, s.free[0], s.kern, s.width), s.free[0] + 1, s.free[0] + s.width))
  }

  lemma SafeNewDirKeeps(s: PM)
    requires Inv(s) && SafeNewDir(s)
    ensures Inv(NewDir(s))
  {
    hide InvX, Survives, Clear, NewDir, Copied;
    if Clear(s) {
      NewDirKeeps(s, {});
    } else {
      NewDirIff(s);
    }
  }

  // ---- the guard without directories and tables behind is a case of these

  lemma ClearBlank(s: PM)
    requires Clear(s)
    ensures Reach(s) && BlankBehind(s)
  {
  }

  lemma ClearMappable(s: PM, d: int, v: int)
    requires Inv(s) && CanMapNew(s, d, v)
    ensures Mappable(s, d, v) && TableSafe(Pop(s), d, v)
  {
    hide InvX, Clear, BlankBehind;
    MapNewReady(s, d, v);
    if !Present(At(s.mem, d, v / ENTRIES)) {
      ClearBlank(Pop(s));
    }
  }

  lemma {:induction false} ClearMmAlloc(s: PM, d: int, from: int, end: int)
    requires Inv(s) && CanMmAlloc(s, d, from, end)
    ensures SafeMmAlloc(s, d, from, end)
    decreases end - from
  {
    hide InvX, MapNew, CanMapNew, Mappable, TableSafe;
    if from < end {
      ClearMappable(s, d, from);
      MapNewKeeps(s, d, from);
      ClearMmAlloc(MapNew(s, d, from), d, from + 1, end);
    }
  }

  /** With no directory and no table in the range there is nothing to survive. */
  lemma ClearSurvives(s: PM, m: seq<Page>, lo: int, hi: int)
    requires forall c :: lo <= c < hi ==> !Container(s, c)
    ensures Survives(s, m, lo, hi)
  {
    assert forall t :: t in s.tables ==> Container(s, t);
    assert forall d :: d in s.dirs ==> Container(s, d);
    assert forall f :: Entries(s, m, lo, hi, f) == {} && Entries(s, s.mem, lo, hi, f) == {};
  }

  lemma ClearEntry(s: PM, t: int, st: int, i: int)
    requires CanCopyEntry(s, t, st, i, false)
    ensures SafeEntry(s, t, st, i)
  {
    hide Survives, Copied;
    if Present(At(s.mem, st, i)) {
      assert forall c :: Container(s.(mem := EntryPlaced(s, t, st, i)), c) == Container(s, c);
      ClearSurvives(s.(mem := EntryPlaced(s, t, st, i)), Copied(EntryPlaced(s, t, st, i), s.free[0], Frame(At(s.mem, st, i)), s.width),
                    s.free[0] + 1, s.free[0] + s.width);
    }
  }

  lemma {:induction false} ClearTable(s: PM, t: int, st: int, i: int)
    requires CanCopyTable(s, t, st, i, false)
    ensures SafeCopyTable(s, t, st, i)
    decreases ENTRIES - i
  {
    hide CanCopyEntry, SafeEntry, CopyEntry;
    if i < ENTRIES {
      ClearEntry(s, t, st, i);
      ClearTable(CopyEntry(s, t, st, i), t, st, i + 1);
    }
  }

  lemma ClearSlot(s: PM, dst: int, src: int, i: int)
    requires Inv(s) && CanCopySlot(s, dst, src, i, false)
    ensures SafeSlot(s, dst, src, i)
  {
    hide InvX, AddTable, CanCopyTable, SafeCopyTable, Clear, BlankBehind;
    if Copies(s, dst, src, i) {
      var e := At(s.mem, src, i);
      CopySlotReady(s, dst, src, i, false);
      AddTableGrows(s, dst, i, Attr(e), false);
      PteFields(s.free[0], Attr(e));
      ClearBlank(s);
      ClearTable(AddTable(s, dst, i, Attr(e)), s.free[0], Frame(e), 0);
    }
  }

  lemma {:induction false} ClearCopyDir(s: PM, dst: int, src: int, i: int)
    requires Inv(s) && CanCopyDir(s, dst, src, i, false)
    ensures SafeCopyDir(s, dst, src, i)
    decreases ENTRIES - i
  {
    hide InvX, CopySlot, CanCopySlot, SafeSlot, SlotCopied, Grows;
    if i < ENTRIES {
      ClearSlot(s, dst, src, i);
      CopySlotCopies(s, dst, src, i, false);
      ClearCopyDir(CopySlot(s, dst, src, i), dst, src, i + 1);
    }
  }
}
