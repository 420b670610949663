/** page_insert, page_remove and mm_alloc keep the invariant, and they refine updating a
    map from page numbers to (frame, attributes). */
module PageMapping {
  import opened Mmu
  import opened PageSpec
  import opened PageInvariant
  import opened PageSteps

  const VPNS := ENTRIES * ENTRIES

  /** A directory of a process or the kernel directory. */
  ghost predicate IsDir(s: PM, d: int) { d == s.kern || d in s.dirs }

  /** The kernel directory fills this slot, so all directories share its table. */
  ghost predicate SharedSlot(s: PM, pdx: int) { Present(At(s.mem, s.kern, pdx)) }

  // ---- which table a directory slot leads to

  /** A present directory slot leads to the kernel's linear map or to a counted table. */
  lemma SlotTarget(s: PM, d: int, pdx: int)
    requires Shape(s) && Tree(s) && IsDir(s, d) && 0 <= pdx < ENTRIES && Present(At(s.mem, d, pdx))
    ensures Frame(At(s.mem, d, pdx)) in s.tables || Frame(At(s.mem, d, pdx)) < FIRST_MANAGED
    ensures Frame(At(s.mem, d, pdx)) in s.tables ==>
        s.tables[Frame(At(s.mem, d, pdx))] == Slot(if SharedSlot(s, pdx) then s.kern else d, pdx)
  {
    var c := if SharedSlot(s, pdx) then s.kern else d;
    assert At(s.mem, c, pdx) == At(s.mem, d, pdx);
    assert IsOwn(s, c, pdx);
    if Frame(At(s.mem, c, pdx)) < FIRST_MANAGED {
      assert Frame(At(s.mem, c, pdx)) !in s.tables;
    }
  }

  lemma TablePlain(s: PM, t: int)
    requires Shape(s) && DirsOk(s) && t in s.tables
    ensures PlainTable(s, t) && Managed(t)
  {
  }

  /** Two directory slots lead to the same counted table only if they are the same slot or
      share it through the kernel directory. */
  lemma SameTable(s: PM, d: int, d2: int, pdx: int, pdx2: int)
    requires Shape(s) && Tree(s) && IsDir(s, d) && IsDir(s, d2)
    requires 0 <= pdx < ENTRIES && 0 <= pdx2 < ENTRIES
    requires Present(At(s.mem, d, pdx)) && Present(At(s.mem, d2, pdx2))
    requires Frame(At(s.mem, d, pdx)) in s.tables
    ensures Frame(At(s.mem, d2, pdx2)) == Frame(At(s.mem, d, pdx))
      <==> pdx2 == pdx && (d2 == d || SharedSlot(s, pdx))
  {
    SlotTarget(s, d, pdx);
    SlotTarget(s, d2, pdx2);
  }

  // ---- changing one table entry

  ghost predicate OneEntry(s: PM, s1: PM, t: int, i: int) {
    && t in s.tables && 0 <= i < ENTRIES
    && s1.kern == s.kern && s1.dirs == s.dirs && s1.tables == s.tables
    && (forall c, j :: c != t || j != i ==> At(s1.mem, c, j) == At(s.mem, c, j))
  }

  ghost function EntryMapping(w: Word): Mapping {
    if Present(w) then Mapped(Frame(w), Attr(w)) else Unmapped
  }

  lemma EntryTranslate(s: PM, s1: PM, d: int, v: int, d2: int, v2: int)
    requires Shape(s) && Tree(s) && IsDir(s, d) && IsDir(s, d2) && 0 <= v < VPNS && 0 <= v2 < VPNS
    requires Present(At(s.mem, d, v / ENTRIES))
    requires OneEntry(s, s1, TableOf(s, d, v), v % ENTRIES)
    ensures Translate(s1, d2, v2) ==
        if v2 == v && (d2 == d || SharedSlot(s, v / ENTRIES))
        then EntryMapping(At(s1.mem, TableOf(s, d, v), v % ENTRIES)) else Translate(s, d2, v2)
  {
    var t := TableOf(s, d, v);
    TablePlain(s, t);
    assert At(s1.mem, d2, v2 / ENTRIES) == At(s.mem, d2, v2 / ENTRIES);
    if Present(At(s.mem, d2, v2 / ENTRIES)) {
      SameTable(s, d, d2, v / ENTRIES, v2 / ENTRIES);
    }
  }

  // ---- pgdir_walk with create

  /** The guard of a walk that may have to create the table: either the slot leads to a
      table taken from the free list, or there is room to clear a page for a new one. */
  ghost predicate CanWalk(s: PM, d: int, v: int) {
    && d in s.dirs && 0 <= v < VPNS
    && (if Present(At(s.mem, d, v / ENTRIES)) then TableOf(s, d, v) >= FIRST_MANAGED else Clear(s))
  }

  lemma WalkKeeps(s: PM, held: set<int>, d: int, v: int)
    requires InvX(s, held, {}) && CanWalk(s, d, v)
    ensures InvX(Walk(s, d, v), held, {})
    ensures Present(At(Walk(s, d, v).mem, d, v / ENTRIES)) && TableOf(Walk(s, d, v), d, v) in Walk(s, d, v).tables
    ensures !Present(At(s.mem, d, v / ENTRIES)) ==>
        TableAdded(s, Walk(s, d, v), d, v / ENTRIES, s.free[0])
  {
    if Present(At(s.mem, d, v / ENTRIES)) {
      SlotTarget(s, d, v / ENTRIES);
    } else {
      AddTableKeeps(s, held, d, v / ENTRIES, PTE_P + PTE_W + PTE_U);
      AddTableAdds(s, held, d, v / ENTRIES, PTE_P + PTE_W + PTE_U);
    }
  }

  /** A new, cleared table changes no translation. */
  lemma WalkTranslate(s: PM, held: set<int>, d: int, v: int, d2: int, v2: int)
    requires InvX(s, held, {}) && CanWalk(s, d, v) && IsDir(s, d2) && 0 <= v2 < VPNS
    ensures Translate(Walk(s, d, v), d2, v2) == Translate(s, d2, v2)
  {
    if !Present(At(s.mem, d, v / ENTRIES)) {
      WalkKeeps(s, held, d, v);
      LowPagesKept(s, d, v / ENTRIES, PTE_P + PTE_W + PTE_U);
      AddedTranslate(s, Walk(s, d, v), d, v / ENTRIES, s.free[0], d2, v2);
    }
  }

  lemma LowPagesKept(s: PM, d: int, i: int, attr: int)
    requires Shape(s) && Managed(d) && (s.free != [] ==> Managed(s.free[0]))
    ensures forall c, j :: c < FIRST_MANAGED ==> At(AddTable(s, d, i, attr).mem, c, j) == At(s.mem, c, j)
  {
  }

  lemma AddedTranslate(s: PM, s1: PM, d: int, i: int, p: int, d2: int, v2: int)
    requires Shape(s) && Tree(s) && TableAdded(s, s1, d, i, p) && IsDir(s, d2) && 0 <= v2 < VPNS
    requires forall c, j :: c < FIRST_MANAGED ==> At(s1.mem, c, j) == At(s.mem, c, j)
    ensures Translate(s1, d2, v2) == Translate(s, d2, v2)
  {
    if d2 != d || v2 / ENTRIES != i {
      assert At(s1.mem, d2, v2 / ENTRIES) == At(s.mem, d2, v2 / ENTRIES);
      if Present(At(s.mem, d2, v2 / ENTRIES)) {
        SlotTarget(s, d2, v2 / ENTRIES);
        var t := TableOf(s, d2, v2);
        assert At(s1.mem, t, v2 % ENTRIES) == At(s.mem, t, v2 % ENTRIES);
      }
    }
  }

  // ---- page_insert

  /** The guard of page_insert: a table can be reached, the page is not itself a directory
      or table, and what is mapped there now is a managed page other than pp. */
  ghost predicate CanInsert(s: PM, held: set<int>, d: int, pp: int, v: int) {
    && CanWalk(s, d, v)
    && Managed(pp) && pp !in s.dirs && pp !in s.tables && pp !in s.free
    && (pp in held || RefAt(s.refs, pp) > 0)
    && (Translate(s, d, v).Mapped? ==> Managed(Translate(s, d, v).frame) && Translate(s, d, v).frame != pp)
  }

  /** The two steps after the walk: unlink what the entry maps, link the page. */
  function Unlinked(s: PM, t: int, i: int): PM {
    if Present(At(s.mem, t, i)) then Unlink(s, t, i) else s
  }

  ghost predicate CanReplace(s: PM, held: set<int>, t: int, i: int, pp: int) {
    && t in s.tables && 0 <= i < ENTRIES
    && Managed(pp) && pp !in s.dirs && pp !in s.tables && (pp in held || RefAt(s.refs, pp) > 0)
    && (Present(At(s.mem, t, i)) ==> Managed(Frame(At(s.mem, t, i))) && Frame(At(s.mem, t, i)) != pp)
  }

  lemma UnlinkedCanLink(s: PM, held: set<int>, t: int, i: int, pp: int)
    requires Shape(s) && PlainTable(s, t) && CanReplace(s, held, t, i, pp)
    ensures CanLink(Unlinked(s, t, i), t, i, pp)
    ensures pp in held || RefAt(Unlinked(s, t, i).refs, pp) > 0
  {
  }

  lemma ReplaceKeeps(s: PM, held: set<int>, t: int, i: int, pp: int, attr: int)
    requires InvX(s, held, {}) && CanReplace(s, held, t, i, pp) && 0 <= attr < PGSIZE && attr % 2 == 1
    ensures InvX(Link(Unlinked(s, t, i), t, i, pp, attr), held - {pp}, {})
  {
    TablePlain(s, t);
    UnlinkedCanLink(s, held, t, i, pp);
    if Present(At(s.mem, t, i)) {
      UnlinkKeeps(s, held, t, i, Frame(At(s.mem, t, i)));
    }
    LinkKeeps(Unlinked(s, t, i), held, t, i, pp, attr);
  }

  /** page_insert is a walk, an unlink and a link. */
  lemma InsertIsReplace(s: PM, held: set<int>, d: int, pp: int, v: int, perm: int)
    requires InvX(s, held, {}) && CanInsert(s, held, d, pp, v) && 0 <= perm < PGSIZE
    ensures var s1 := Walk(s, d, v); var t := TableOf(s1, d, v);
      && CanReplace(s1, held, t, v % ENTRIES, pp)
      && Insert(s, d, pp, v, perm) == Link(Unlinked(s1, t, v % ENTRIES), t, v % ENTRIES, pp, WithP(perm))
  {
    WalkKeeps(s, held, d, v);
    WalkTranslate(s, held, d, v, d, v);
  }

  lemma InsertKeeps(s: PM, held: set<int>, d: int, pp: int, v: int, perm: int)
    requires InvX(s, held, {}) && CanInsert(s, held, d, pp, v) && 0 <= perm < PGSIZE
    ensures InvX(Insert(s, d, pp, v, perm), held - {pp}, {})
  {
    hide InvX, Insert, Link, Unlinked, Walk, CanReplace;
    WalkKeeps(s, held, d, v);
    InsertIsReplace(s, held, d, pp, v, perm);
    ReplaceKeeps(Walk(s, d, v), held, TableOf(Walk(s, d, v), d, v), v % ENTRIES, pp, WithP(perm));
  }

  lemma ReplaceOneEntry(s: PM, t: int, i: int, pp: int, attr: int)
    requires Shape(s) && PlainTable(s, t) && 0 <= i < ENTRIES && 0 <= attr < PGSIZE && Managed(pp)
    ensures OneEntry(s, Link(Unlinked(s, t, i), t, i, pp, attr), t, i)
    ensures At(Link(Unlinked(s, t, i), t, i, pp, attr).mem, t, i) == Pte(pp, attr)
  {
  }

  lemma ReplaceTranslate(s: PM, d: int, pp: int, v: int, attr: int, d2: int, v2: int)
    requires Shape(s) && Tree(s) && IsDir(s, d) && IsDir(s, d2) && 0 <= v < VPNS && 0 <= v2 < VPNS
    requires Present(At(s.mem, d, v / ENTRIES)) && TableOf(s, d, v) in s.tables
    requires 0 <= attr < PGSIZE && attr % 2 == 1 && Managed(pp)
    ensures Translate(Link(Unlinked(s, TableOf(s, d, v), v % ENTRIES), TableOf(s, d, v), v % ENTRIES, pp, attr), d2, v2) ==
        if v2 == v && (d2 == d || SharedSlot(s, v / ENTRIES)) then Mapped(pp, attr) else Translate(s, d2, v2)
  {
    var t := TableOf(s, d, v);
    TablePlain(s, t);
    ReplaceOneEntry(s, t, v % ENTRIES, pp, attr);
    PteFields(pp, attr);
    EntryTranslate(s, Link(Unlinked(s, t, v % ENTRIES), t, v % ENTRIES, pp, attr), d, v, d2, v2);
  }

  /** The refinement of page_insert: the page number v now translates to the page with
      perm|P, in directory d and, when the slot is a shared kernel slot, in all of them;
      every other page number of every directory translates as before. */
  lemma InsertTranslate(s: PM, held: set<int>, d: int, pp: int, v: int, perm: int, d2: int, v2: int)
    requires InvX(s, held, {}) && CanInsert(s, held, d, pp, v) && 0 <= perm < PGSIZE
    requires IsDir(s, d2) && 0 <= v2 < VPNS
    ensures Translate(Insert(s, d, pp, v, perm), d2, v2) ==
        if v2 == v && (d2 == d || SharedSlot(s, v / ENTRIES)) then Mapped(pp, WithP(perm)) else Translate(s, d2, v2)
  {
    hide InvX, Insert, Link, Unlinked, Walk, CanReplace;
    var s1 := Walk(s, d, v);
    WalkReady(s, s1, held, d, v);
    WalkTranslate(s, held, d, v, d2, v2);
    InsertIsReplace(s, held, d, pp, v, perm);
    ReplaceTranslate(s1, d, pp, v, WithP(perm), d2, v2);
  }

  lemma WalkReady(s: PM, s1: PM, held: set<int>, d: int, v: int)
    requires InvX(s, held, {}) && CanWalk(s, d, v) && s1 == Walk(s, d, v)
    ensures Shape(s1) && Tree(s1) && Present(At(s1.mem, d, v / ENTRIES)) && TableOf(s1, d, v) in s1.tables
    ensures s1.kern == s.kern && s1.dirs == s.dirs && SharedSlot(s1, v / ENTRIES) == SharedSlot(s, v / ENTRIES)
  {
    WalkKeeps(s, held, d, v);
  }

  // ---- page_remove

  /** A present mapping of a managed page in a table taken from the free list. */
  ghost predicate CanRemove(s: PM, d: int, v: int) {
    && d in s.dirs && 0 <= v < VPNS
    && Translate(s, d, v).Mapped? && Managed(Translate(s, d, v).frame)
    && TableOf(s, d, v) >= FIRST_MANAGED
  }

  lemma RemoveReady(s: PM, d: int, v: int)
    requires Shape(s) && Tree(s) && CanRemove(s, d, v)
    ensures CanUnlink(s, TableOf(s, d, v), v % ENTRIES, Translate(s, d, v).frame)
    ensures Remove(s, d, v) == Unlink(s, TableOf(s, d, v), v % ENTRIES)
  {
    SlotTarget(s, d, v / ENTRIES);
  }

  lemma RemoveKeeps(s: PM, d: int, v: int)
    requires Inv(s) && CanRemove(s, d, v)
    ensures Inv(Remove(s, d, v))
  {
    RemoveReady(s, d, v);
    UnlinkKeeps(s, {}, TableOf(s, d, v), v % ENTRIES, Translate(s, d, v).frame);
  }

  /** page_remove unmaps v in d, or in all directories when the slot is shared, and changes
      no other translation. */
  lemma RemoveTranslate(s: PM, d: int, v: int, d2: int, v2: int)
    requires Inv(s) && CanRemove(s, d, v) && IsDir(s, d2) && 0 <= v2 < VPNS
    ensures Translate(Remove(s, d, v), d2, v2) ==
        if v2 == v && (d2 == d || SharedSlot(s, v / ENTRIES)) then Unmapped else Translate(s, d2, v2)
  {
    RemoveReady(s, d, v);
    var t := TableOf(s, d, v);
    TablePlain(s, t);
    UnlinkOneEntry(s, t, v % ENTRIES);
    EntryTranslate(s, Unlink(s, t, v % ENTRIES), d, v, d2, v2);
  }

  lemma UnlinkOneEntry(s: PM, t: int, i: int)
    requires Shape(s) && PlainTable(s, t) && 0 <= i < ENTRIES
    ensures OneEntry(s, Unlink(s, t, i), t, i) && At(Unlink(s, t, i).mem, t, i) == 0
  {
  }

  // ---- one round of mm_alloc

  ghost predicate CanMapNew(s: PM, d: int, v: int) {
    && s.free != [] && CanWalk(Pop(s), d, v)
    && (Translate(s, d, v).Mapped? ==> Managed(Translate(s, d, v).frame))
  }

  lemma MapNewReady(s: PM, d: int, v: int)
    requires Inv(s) && CanMapNew(s, d, v)
    ensures InvX(Pop(s), {s.free[0]}, {}) && CanInsert(Pop(s), {s.free[0]}, d, s.free[0], v)
  {
    hide Expected, CountsOk, SlotsOk, OwnersOk, SharedOk, LeavesOk;
    var p := s.free[0];
    PopKeeps(s, {});
    assert {} + {p} == {p};
    if Container(s, p) {
      ContainerIsLive(s, {}, {}, p);
    }
    if Translate(s, d, v).Mapped? {
      SlotTarget(s, d, v / ENTRIES);
      FreshUnmapped(s, {}, p);
    }
    assert p !in s.free[1..];
  }

  lemma MapNewKeeps(s: PM, d: int, v: int)
    requires Inv(s) && CanMapNew(s, d, v)
    ensures Inv(MapNew(s, d, v))
  {
    hide InvX, Insert, CanInsert;
    var p := s.free[0];
    MapNewReady(s, d, v);
    InsertKeeps(Pop(s), {p}, d, p, v, PTE_W + PTE_P + PTE_U);
    assert {p} - {p} == {};
  }

  /** One round of mm_alloc maps the first free page at v and changes nothing else. */
  lemma MapNewTranslate(s: PM, d: int, v: int, d2: int, v2: int)
    requires Inv(s) && CanMapNew(s, d, v) && IsDir(s, d2) && 0 <= v2 < VPNS
    ensures Translate(MapNew(s, d, v), d2, v2) ==
        if v2 == v && (d2 == d || SharedSlot(s, v / ENTRIES)) then Mapped(s.free[0], PTE_P + PTE_W + PTE_U)
        else Translate(s, d2, v2)
  {
    hide InvX, Insert, CanInsert;
    MapNewReady(s, d, v);
    InsertTranslate(Pop(s), {s.free[0]}, d, s.free[0], v, PTE_W + PTE_P + PTE_U, d2, v2);
  }

  /** What a replaced entry leaves alone, and what it does to the counts. */
  lemma ReplaceEffect(s: PM, held: set<int>, t: int, i: int, pp: int, attr: int, g: int)
    requires Shape(s) && PlainTable(s, t) && CanReplace(s, held, t, i, pp) && Managed(g)
    ensures var s1 := Link(Unlinked(s, t, i), t, i, pp, attr);
      && s1.kern == s.kern && s1.dirs == s.dirs
      && (forall j :: At(s1.mem, s.kern, j) == At(s.mem, s.kern, j))
      && RefAt(s1.refs, g) == RefAt(s.refs, g) + (if g == pp then 1 else 0)
           - (if Present(At(s.mem, t, i)) && Frame(At(s.mem, t, i)) == g then 1 else 0)
  {
  }

  lemma InsertEffect(s: PM, held: set<int>, d: int, pp: int, v: int, perm: int, g: int)
    requires InvX(s, held, {}) && CanInsert(s, held, d, pp, v) && 0 <= perm < PGSIZE && Managed(g)
    ensures Insert(s, d, pp, v, perm).kern == s.kern && Insert(s, d, pp, v, perm).dirs == s.dirs
    ensures forall i :: SharedSlot(Insert(s, d, pp, v, perm), i) == SharedSlot(s, i)
    ensures g !in s.free ==>
        RefAt(Insert(s, d, pp, v, perm).refs, g) == RefAt(s.refs, g) + (if g == pp then 1 else 0)
          - (if Translate(s, d, v).Mapped? && Translate(s, d, v).frame == g then 1 else 0)
  {
    hide InvX, Insert, Link, Unlinked, CanReplace, Translate, Walk;
    var s1 := Walk(s, d, v);
    var t := TableOf(s1, d, v);
    MapNewWalked(s, held, d, v);
    InsertIsReplace(s, held, d, pp, v, perm);
    TablePlain(s1, t);
    ReplaceEffect(s1, held, t, v % ENTRIES, pp, WithP(perm), g);
    WalkTranslate(s, held, d, v, d, v);
    TranslatePresent(s1, d, v);
    if g !in s.free {
      WalkRefs(s, d, v, g);
    }
  }

  lemma TranslatePresent(s: PM, d: int, v: int)
    requires Present(At(s.mem, d, v / ENTRIES))
    ensures Translate(s, d, v) == EntryMapping(At(s.mem, TableOf(s, d, v), v % ENTRIES))
  {
  }

  lemma MapNewKernel(s: PM, d: int, v: int)
    requires Inv(s) && CanMapNew(s, d, v)
    ensures MapNew(s, d, v).kern == s.kern && MapNew(s, d, v).dirs == s.dirs
    ensures forall i :: SharedSlot(MapNew(s, d, v), i) == SharedSlot(s, i)
  {
    hide InvX, Insert, CanInsert;
    MapNewReady(s, d, v);
    MapNewFresh(s);
    InsertEffect(Pop(s), {s.free[0]}, d, s.free[0], v, PTE_W + PTE_P + PTE_U, s.free[0]);
  }

  lemma MapNewWalked(u: PM, held: set<int>, d: int, v: int)
    requires InvX(u, held, {}) && CanWalk(u, d, v)
    ensures Shape(Walk(u, d, v)) && DirsOk(Walk(u, d, v)) && TableOf(Walk(u, d, v), d, v) in Walk(u, d, v).tables
    ensures Present(At(Walk(u, d, v).mem, d, v / ENTRIES))
    ensures Walk(u, d, v).kern == u.kern && Walk(u, d, v).dirs == u.dirs
    ensures forall i :: At(Walk(u, d, v).mem, u.kern, i) == At(u.mem, u.kern, i)
  {
    hide FreeOk, CountsOk, SlotsOk, OwnersOk, SharedOk, LeavesOk;
    WalkKeeps(u, held, d, v);
  }

  // ---- counts seen from one mapping

  /** The page mapped at v is mapped there and nowhere else. */
  ghost predicate Exclusive(s: PM, d: int, v: int) {
    && Translate(s, d, v).Mapped? && Managed(Translate(s, d, v).frame)
    && TableOf(s, d, v) >= FIRST_MANAGED
    && RefAt(s.refs, Translate(s, d, v).frame) == 1
  }

  lemma TwoSlots(s: PM, x: Slot, y: Slot, f: int)
    requires Shape(s) && CountsOk(s, {}) && Managed(f) && x != y
    requires x in AllSlots() && IsCounted(s, x) && PointsTo(s, x, f)
    requires y in AllSlots() && IsCounted(s, y) && PointsTo(s, y, f)
    ensures RefAt(s.refs, f) >= 2
  {
    assert x in Refs(s, f) - {} && y in Refs(s, f) - {};
    assert |{x, y}| <= |Refs(s, f) - {}| by {
      SubsetCard({x, y}, Refs(s, f) - {});
    }
    assert RefAt(s.refs, f) == Expected(s, {}, f);
  }

  lemma SubsetCard(a: set<Slot>, b: set<Slot>)
    requires a <= b
    ensures |a| <= |b|
  {
    assert b == a + (b - a);
  }

  /** Two page numbers of one directory that both map page f give it two references. */
  lemma TwoMappings(s: PM, d: int, v: int, v2: int)
    requires Inv(s) && d in s.dirs && 0 <= v < VPNS && 0 <= v2 < VPNS && v != v2
    requires Exclusive(s, d, v)
    requires Translate(s, d, v2).Mapped? && TableOf(s, d, v2) >= FIRST_MANAGED
    ensures Translate(s, d, v2).frame != Translate(s, d, v).frame
  {
    hide CountsOk, Expected, SlotsOk, OwnersOk, SharedOk, LeavesOk;
    SlotTarget(s, d, v / ENTRIES);
    SlotTarget(s, d, v2 / ENTRIES);
    SameTable(s, d, d, v / ENTRIES, v2 / ENTRIES);
    var x, y := Slot(TableOf(s, d, v), v % ENTRIES), Slot(TableOf(s, d, v2), v2 % ENTRIES);
    InAllSlots(x.page, x.idx);
    InAllSlots(y.page, y.idx);
    if Translate(s, d, v2).frame == Translate(s, d, v).frame {
      TwoSlots(s, x, y, Translate(s, d, v).frame);
    }
  }

  /** What one round of mm_alloc does to the counts: the new page has count one, and a
      page in use keeps its count unless it is the one that was mapped at v. */
  lemma MapNewRefs(s: PM, d: int, v: int, g: int)
    requires Inv(s) && CanMapNew(s, d, v) && Managed(g)
    ensures g == s.free[0] ==> RefAt(MapNew(s, d, v).refs, g) == 1
    ensures g !in s.free && !(Translate(s, d, v).Mapped? && Translate(s, d, v).frame == g) ==>
        RefAt(MapNew(s, d, v).refs, g) == RefAt(s.refs, g)
  {
    hide InvX, Insert, CanInsert, Translate;
    var p := s.free[0];
    MapNewReady(s, d, v);
    MapNewFresh(s);
    InsertEffect(Pop(s), {p}, d, p, v, PTE_W + PTE_P + PTE_U, g);
    PopTranslate(s, d, v);
    if g == p {
      FreshNotMapped(s, d, v);
    } else if g !in s.free {
      assert g !in s.free[1..];
    }
  }

  lemma PopTranslate(s: PM, d: int, v: int)
    ensures Translate(Pop(s), d, v) == Translate(s, d, v)
  {
  }

  lemma FreshNotMapped(s: PM, d: int, v: int)
    requires Inv(s) && CanMapNew(s, d, v)
    ensures !(Translate(s, d, v).Mapped? && Translate(s, d, v).frame == s.free[0])
  {
    hide FreeOk, CountsOk, SlotsOk, OwnersOk, SharedOk, LeavesOk;
    MapNewReady(s, d, v);
  }

  lemma MapNewFresh(s: PM)
    requires Inv(s) && s.free != []
    ensures Managed(s.free[0]) && RefAt(s.refs, s.free[0]) == 0 && |s.refs| == NPAGES
    ensures s.free[0] !in s.free[1..]
  {
  }

  lemma WalkRefs(u: PM, d: int, v: int, g: int)
    requires g !in u.free
    ensures RefAt(Walk(u, d, v).refs, g) == RefAt(u.refs, g) && |Walk(u, d, v).refs| == |u.refs|
  {
  }
}
