/** Each elementary step of kernel/src/paging/pmap.c keeps the invariant: linking and
    unlinking one table entry, adding a directory or a table, and the two steps of the
    teardown. */
module PageSteps {
  import opened Mmu
  import opened PageSpec
  import opened PageInvariant

  /** s1 differs from s, as far as references go, in the one counted slot x, which now holds w. */
  ghost predicate OneWord(s: PM, s1: PM, x: Slot, w: Word) {
    && x in AllSlots() && IsCounted(s1, x)
    && At(s1.mem, x.page, x.idx) == w
    && (forall sl :: sl in AllSlots() && sl != x && (IsCounted(s, sl) || IsCounted(s1, sl)) ==>
          IsCounted(s, sl) && IsCounted(s1, sl) && At(s1.mem, sl.page, sl.idx) == At(s.mem, sl.page, sl.idx))
  }

  lemma OneWordRefs(s: PM, s1: PM, x: Slot, w: Word, f: int)
    requires OneWord(s, s1, x, w)
    ensures Refs(s1, f) == Refs(s, f) - {x} + (if Present(w) && Frame(w) == f then {x} else {})
  {
  }

  lemma SwapCard(a: set<Slot>, gone: set<Slot>, x: Slot, now: bool)
    requires x !in gone
    ensures |a - {x} + (if now then {x} else {}) - gone|
         == |a - gone| - (if x in a then 1 else 0) + (if now then 1 else 0)
  {
    var b := a - gone;
    if x in a {
      assert b == (b - {x}) + {x};
    }
    assert a - {x} - gone == b - {x};
    assert a - {x} + {x} - gone == (b - {x}) + {x};
    assert a - {x} + {} - gone == b - {x};
    if x !in a {
      assert b - {x} == b;
    }
  }

  /** Rewriting one counted slot moves one reference. */
  lemma OneWordCount(s: PM, s1: PM, x: Slot, w: Word, gone: set<Slot>, f: int)
    requires OneWord(s, s1, x, w) && x !in gone && s1.dirs == s.dirs
    ensures Expected(s1, gone, f) == Expected(s, gone, f)
        - (if IsCounted(s, x) && PointsTo(s, x, f) then 1 else 0)
        + (if Present(w) && Frame(w) == f then 1 else 0)
  {
    OneWordRefs(s, s1, x, w, f);
    SwapCard(Refs(s, f), gone, x, Present(w) && Frame(w) == f);
  }

  // ---- linking a table entry to a page

  ghost predicate CanLink(s: PM, t: int, i: int, f: int) {
    && t in s.tables && 0 <= i < ENTRIES && !Present(At(s.mem, t, i))
    && Managed(f) && f !in s.dirs && f !in s.tables
  }

  function Link(s: PM, t: int, i: int, f: int, attr: int): PM {
    s.(mem := Put(s.mem, t, i, Pte(f, attr)), refs := AddRef(s.refs, f, 1))
  }

  ghost predicate PlainTable(s: PM, t: int) {
    t in s.tables && 0 <= t < NPAGES && t != s.kern && t !in s.dirs
  }

  lemma LeafOneWord(s: PM, s1: PM, t: int, i: int, w: Word)
    requires Shape(s) && PlainTable(s, t) && 0 <= i < ENTRIES
    requires s1.kern == s.kern && s1.dirs == s.dirs && s1.tables == s.tables && s1.mem == Put(s.mem, t, i, w)
    ensures OneWord(s, s1, Slot(t, i), w)
    ensures forall c, j :: c != t || j != i ==> At(s1.mem, c, j) == At(s.mem, c, j)
  {
    InAllSlots(t, i);
  }

  lemma LinkTree(s: PM, t: int, i: int, f: int, attr: int)
    requires Shape(s) && Tree(s) && CanLink(s, t, i, f)
    requires 0 <= attr < PGSIZE
    ensures Tree(Link(s, t, i, f, attr))
  {
    var s1 := Link(s, t, i, f, attr);
    LeafOneWord(s, s1, t, i, Pte(f, attr));
    PteFields(f, attr);
    LeafTree(s, s1, t, i);
  }

  /** Changing one table entry to something the tree allows keeps the tree. */
  lemma LeafTree(s: PM, s1: PM, t: int, i: int)
    requires Tree(s) && Shape(s)
    requires t in s.tables && 0 <= i < ENTRIES
    requires s1.kern == s.kern && s1.dirs == s.dirs && s1.tables == s.tables
    requires forall c, j :: c != t || j != i ==> At(s1.mem, c, j) == At(s.mem, c, j)
    requires Present(At(s1.mem, t, i)) ==> LeafOk(s1, t, Frame(At(s1.mem, t, i)))
    ensures Tree(s1)
  {
    forall c, j | 0 <= j < ENTRIES && IsOwn(s1, c, j) && Present(At(s1.mem, c, j))
      ensures OwnedTable(s1, c, j) || (c == s1.kern && Frame(At(s1.mem, c, j)) < FIRST_MANAGED)
    {
      assert IsOwn(s, c, j);
    }
    forall u | u in s1.tables
      ensures IsOwn(s1, s1.tables[u].page, s1.tables[u].idx) && PointsTo(s1, s1.tables[u], u)
    {
      assert IsOwn(s, s.tables[u].page, s.tables[u].idx);
    }
  }

  lemma LinkCount(s: PM, t: int, i: int, f: int, attr: int, g: int)
    requires Shape(s) && PlainTable(s, t) && CanLink(s, t, i, f)
    requires 0 <= attr < PGSIZE && attr % 2 == 1
    ensures Expected(Link(s, t, i, f, attr), {}, g) == Expected(s, {}, g) + (if g == f then 1 else 0)
  {
    PteFields(f, attr);
    LeafOneWord(s, Link(s, t, i, f, attr), t, i, Pte(f, attr));
    OneWordCount(s, Link(s, t, i, f, attr), Slot(t, i), Pte(f, attr), {}, g);
  }

  lemma LinkKeeps(s: PM, held: set<int>, t: int, i: int, f: int, attr: int)
    requires InvX(s, held, {}) && CanLink(s, t, i, f)
    requires 0 <= attr < PGSIZE && attr % 2 == 1
    requires f in held || RefAt(s.refs, f) > 0
    ensures InvX(Link(s, t, i, f, attr), held - {f}, {})
  {
    LinkCounts(s, t, i, f, attr);
    LinkTree(s, t, i, f, attr);
    LinkFree(s, held, t, i, f, attr);
  }

  lemma LinkCounts(s: PM, t: int, i: int, f: int, attr: int)
    requires Shape(s) && CountsOk(s, {}) && PlainTable(s, t) && CanLink(s, t, i, f)
    requires 0 <= attr < PGSIZE && attr % 2 == 1
    ensures CountsOk(Link(s, t, i, f, attr), {})
  {
    hide Expected;
    var s1 := Link(s, t, i, f, attr);
    forall g | Managed(g)
      ensures RefAt(s1.refs, g) == Expected(s1, {}, g)
    {
      LinkCount(s, t, i, f, attr, g);
    }
  }

  lemma LinkFree(s: PM, held: set<int>, t: int, i: int, f: int, attr: int)
    requires Shape(s) && FreeOk(s, held) && Managed(f)
    requires forall g :: Managed(g) ==> RefAt(s.refs, g) >= 0
    requires f in held || RefAt(s.refs, f) > 0
    ensures FreeOk(Link(s, t, i, f, attr), held - {f})
  {
  }

  // ---- giving a reference back

  lemma DecrefFree(s: PM, held: set<int>, f: int)
    requires Shape(s) && FreeOk(s, held) && Managed(f) && f !in held
    requires RefAt(s.refs, f) > 0
    ensures FreeOk(Decref(s, f), held)
    ensures forall g :: RefAt(Decref(s, f).refs, g) == RefAt(s.refs, g) - (if g == f then 1 else 0)
  {
    assert f !in s.free;
  }

  ghost predicate CanUnlink(s: PM, t: int, i: int, f: int) {
    t in s.tables && 0 <= i < ENTRIES && PointsTo(s, Slot(t, i), f) && Managed(f)
  }

  function Unlink(s: PM, t: int, i: int): PM {
    Decref(s.(mem := Put(s.mem, t, i, 0)), Frame(At(s.mem, t, i)))
  }

  lemma UnlinkCount(s: PM, t: int, i: int, g: int)
    requires Shape(s) && PlainTable(s, t) && 0 <= i < ENTRIES
    ensures Expected(Unlink(s, t, i), {}, g) == Expected(s, {}, g) - (if PointsTo(s, Slot(t, i), g) then 1 else 0)
  {
    LeafOneWord(s, Unlink(s, t, i), t, i, 0);
    OneWordCount(s, Unlink(s, t, i), Slot(t, i), 0, {}, g);
  }

  /** Clearing a table entry and giving its reference back keeps the invariant. */
  lemma UnlinkKeeps(s: PM, held: set<int>, t: int, i: int, f: int)
    requires InvX(s, held, {}) && CanUnlink(s, t, i, f)
    ensures InvX(Unlink(s, t, i), held, {})
  {
    hide Expected, CountsOk, SlotsOk, OwnersOk, SharedOk, LeavesOk;
    var s0, s1 := s.(mem := Put(s.mem, t, i, 0)), Unlink(s, t, i);
    PointedIsLive(s, held, {}, Slot(t, i), f);
    DecrefFree(s0, held, f);
    UnlinkCounts(s, t, i, f);
    UnlinkTree(s, t, i);
  }

  lemma UnlinkCounts(s: PM, t: int, i: int, f: int)
    requires Shape(s) && CountsOk(s, {}) && PlainTable(s, t) && CanUnlink(s, t, i, f)
    ensures CountsOk(Unlink(s, t, i), {})
  {
    hide Expected;
    var s1 := Unlink(s, t, i);
    assert forall g :: RefAt(s1.refs, g) == RefAt(s.refs, g) - (if g == f then 1 else 0);
    forall g | Managed(g)
      ensures RefAt(s1.refs, g) == Expected(s1, {}, g)
    {
      UnlinkCount(s, t, i, g);
    }
  }

  lemma UnlinkTree(s: PM, t: int, i: int)
    requires Shape(s) && Tree(s) && t in s.tables && 0 <= i < ENTRIES
    ensures Tree(Unlink(s, t, i))
  {
    LeafOneWord(s, Unlink(s, t, i), t, i, 0);
    LeafTree(s, Unlink(s, t, i), t, i);
  }

  // ---- teardown of a table: first its entries give their references back, then it goes

  ghost function Done(t: int, n: int): set<Slot> {
    set sl | sl in AllSlots() && sl.page == t && sl.idx < n
  }

  ghost predicate ProcessTable(s: PM, t: int) {
    t in s.tables && s.tables[t].page != s.kern
  }

  lemma DoneStep(r: set<Slot>, t: int, i: int)
    requires 0 <= t < NPAGES && 0 <= i < ENTRIES
    ensures |r - Done(t, i + 1)| == |r - Done(t, i)| - (if Slot(t, i) in r then 1 else 0)
  {
    var x := Slot(t, i);
    InAllSlots(t, i);
    var a, b := r - Done(t, i), r - Done(t, i + 1);
    if x in r {
      assert a == b + {x} && x !in b;
    } else {
      assert a == b;
    }
  }

  lemma FreeEntryCount(s: PM, t: int, i: int, g: int)
    requires Shape(s) && t in s.tables && 0 <= t < NPAGES && 0 <= i < ENTRIES
    ensures Expected(FreeEntry(s, t, i), Done(t, i + 1), g)
         == Expected(s, Done(t, i), g) - (if PointsTo(s, Slot(t, i), g) then 1 else 0)
  {
    InAllSlots(t, i);
    SameRefs(s, FreeEntry(s, t, i), g);
    DoneStep(Refs(s, g), t, i);
  }

  lemma FreeEntryKeeps(s: PM, t: int, i: int)
    requires ProcessTable(s, t) && 0 <= i < ENTRIES
    requires InvX(s, {}, Done(t, i))
    ensures InvX(FreeEntry(s, t, i), {}, Done(t, i + 1))
  {
    FreeEntryFree(s, t, i);
    FreeEntryCounts(s, t, i);
    FreeEntryTree(s, t, i);
  }

  lemma FreeEntryTree(s: PM, t: int, i: int)
    requires Shape(s) && Tree(s)
    ensures Shape(FreeEntry(s, t, i)) && Tree(FreeEntry(s, t, i))
  {
    SameTreeTree(s, FreeEntry(s, t, i));
  }

  lemma FreeEntryFree(s: PM, t: int, i: int)
    requires ProcessTable(s, t) && 0 <= i < ENTRIES
    requires InvX(s, {}, Done(t, i))
    ensures FreeOk(FreeEntry(s, t, i), {})
  {
    var e := At(s.mem, t, i);
    if Present(e) {
      PointedIsLive(s, {}, Done(t, i), Slot(t, i), Frame(e));
      DecrefFree(s, {}, Frame(e));
    }
  }

  lemma FreeEntryCounts(s: PM, t: int, i: int)
    requires Shape(s) && CountsOk(s, Done(t, i)) && t in s.tables && 0 <= t < NPAGES && 0 <= i < ENTRIES
    requires Present(At(s.mem, t, i)) ==> 0 <= Frame(At(s.mem, t, i)) < NPAGES
    ensures CountsOk(FreeEntry(s, t, i), Done(t, i + 1))
  {
    hide Expected;
    var s1 := FreeEntry(s, t, i);
    assert forall g :: RefAt(s1.refs, g) == RefAt(s.refs, g) - (if PointsTo(s, Slot(t, i), g) then 1 else 0);
    forall g | Managed(g)
      ensures RefAt(s1.refs, g) == Expected(s1, Done(t, i + 1), g)
    {
      FreeEntryCount(s, t, i, g);
    }
  }

  // ---- dropping an emptied table

  ghost predicate CanDrop(s: PM, d: int, pdx: int, t: int) {
    && d in s.dirs && 0 <= d < NPAGES && 0 <= pdx < ENTRIES && !Present(At(s.mem, s.kern, pdx))
    && t in s.tables && s.tables[t] == Slot(d, pdx) && PointsTo(s, Slot(d, pdx), t)
    && PlainTable(s, t) && Managed(t) && d != s.kern && d !in s.tables
  }

  lemma DropRefs(s: PM, d: int, pdx: int, t: int, g: int)
    requires Shape(s) && CanDrop(s, d, pdx, t)
    ensures Refs(DropTable(s, d, pdx, t), g) == Refs(s, g) - Done(t, ENTRIES) - {Slot(d, pdx)}
  {
    var s1 := DropTable(s, d, pdx, t);
    forall sl | sl in AllSlots()
      ensures sl in Refs(s1, g) <==> sl in Refs(s, g) - Done(t, ENTRIES) - {Slot(d, pdx)}
    {
      assert At(s1.mem, s.kern, sl.idx) == At(s.mem, s.kern, sl.idx);
      if sl.page == t {
        assert !IsCounted(s1, sl);
      }
    }
  }

  lemma DropCount(s: PM, d: int, pdx: int, t: int, g: int)
    requires Shape(s) && CanDrop(s, d, pdx, t)
    ensures Expected(DropTable(s, d, pdx, t), {}, g)
         == Expected(s, Done(t, ENTRIES), g) - (if g == t then 1 else 0)
  {
    DropRefs(s, d, pdx, t, g);
    InAllSlots(d, pdx);
    RemoveOne(Refs(s, g), Done(t, ENTRIES), Slot(d, pdx));
    assert Slot(d, pdx) in Refs(s, g) <==> g == t;
  }

  lemma RemoveOne(r: set<Slot>, gone: set<Slot>, x: Slot)
    requires x !in gone
    ensures |r - gone - {x} - {}| == |r - gone| - (if x in r then 1 else 0)
  {
    var a, b := r - gone, r - gone - {x} - {};
    if x in r {
      assert a == b + {x};
    } else {
      assert a == b;
    }
  }

  lemma DropCounts(s: PM, d: int, pdx: int, t: int)
    requires Shape(s) && CountsOk(s, Done(t, ENTRIES)) && CanDrop(s, d, pdx, t)
    ensures CountsOk(DropTable(s, d, pdx, t), {})
  {
    hide Expected, CanDrop;
    var s1 := DropTable(s, d, pdx, t);
    forall g | Managed(g)
      ensures RefAt(s1.refs, g) == Expected(s1, {}, g)
    {
      DropCount(s, d, pdx, t, g);
    }
  }

  lemma DropSlots(s: PM, d: int, pdx: int, t: int)
    requires Shape(s) && SlotsOk(s) && CanDrop(s, d, pdx, t)
    ensures SlotsOk(DropTable(s, d, pdx, t))
  {
    var s1 := DropTable(s, d, pdx, t);
    forall c, i | 0 <= i < ENTRIES && IsOwn(s1, c, i) && Present(At(s1.mem, c, i))
      ensures OwnedTable(s1, c, i) || (c == s1.kern && Frame(At(s1.mem, c, i)) < FIRST_MANAGED)
    {
      assert IsOwn(s, c, i);
    }
  }

  lemma DropOwners(s: PM, d: int, pdx: int, t: int)
    requires Shape(s) && OwnersOk(s) && CanDrop(s, d, pdx, t)
    ensures OwnersOk(DropTable(s, d, pdx, t))
  {
    var s1 := DropTable(s, d, pdx, t);
    forall u | u in s1.tables
      ensures IsOwn(s1, s1.tables[u].page, s1.tables[u].idx) && PointsTo(s1, s1.tables[u], u)
    {
      assert IsOwn(s, s.tables[u].page, s.tables[u].idx);
    }
  }

  lemma DropTree(s: PM, d: int, pdx: int, t: int)
    requires Shape(s) && Tree(s) && CanDrop(s, d, pdx, t)
    ensures Tree(DropTable(s, d, pdx, t))
  {
    DropSlots(s, d, pdx, t);
    DropOwners(s, d, pdx, t);
    DropRest(s, d, pdx, t);
  }

  lemma DropRest(s: PM, d: int, pdx: int, t: int)
    requires Shape(s) && DirsOk(s) && SharedOk(s) && LeavesOk(s) && CanDrop(s, d, pdx, t)
    ensures DirsOk(DropTable(s, d, pdx, t)) && SharedOk(DropTable(s, d, pdx, t)) && LeavesOk(DropTable(s, d, pdx, t))
  {
    var s1 := DropTable(s, d, pdx, t);
    assert forall c, i :: c != d || i != pdx ==> At(s1.mem, c, i) == At(s.mem, c, i);
  }

  lemma DropKeeps(s: PM, d: int, pdx: int, t: int)
    requires InvX(s, {}, Done(t, ENTRIES)) && CanDrop(s, d, pdx, t)
    ensures Inv(DropTable(s, d, pdx, t))
  {
    hide Expected, CountsOk, SlotsOk, OwnersOk, SharedOk, LeavesOk;
    var x := Slot(d, pdx);
    PointedIsLive(s, {}, Done(t, ENTRIES), x, t);
    DecrefFree(s, {}, t);
    DropCounts(s, d, pdx, t);
    DropTree(s, d, pdx, t);
  }

  // ---- a page taken from the free list becomes a table or a directory

  /** The guard of clearing or copying to the first free page: the pages behind it that are
      overwritten too exist, and none of them is a directory or a table.  With width 1 it says
      only that there is a free page. */
  ghost predicate Clear(s: PM) {
    && s.free != [] && s.free[0] + s.width <= NPAGES
    && forall c :: s.free[0] < c < s.free[0] + s.width ==> !Container(s, c)
  }

  /** No page in use is overwritten, whatever it is used for. */
  ghost predicate Calm(s: PM) {
    && s.free != [] && s.free[0] + s.width <= NPAGES
    && forall c :: s.free[0] < c < s.free[0] + s.width ==> c in s.free
  }

  /** The guard for the structure alone, or for the contents of all pages in use. */
  ghost predicate Fit(s: PM, full: bool) { if full then Calm(s) else Clear(s) }

  lemma CalmClear(s: PM, held: set<int>)
    requires InvX(s, held, {}) && Calm(s)
    ensures Clear(s)
  {
    forall c | s.free[0] < c < s.free[0] + s.width
      ensures !Container(s, c)
    {
      if Container(s, c) {
        ContainerIsLive(s, held, {}, c);
      }
    }
  }

  lemma FitClear(s: PM, held: set<int>, full: bool)
    requires InvX(s, held, {}) && Fit(s, full)
    ensures Clear(s)
  {
    hide InvX, Calm, Clear;
    if full {
      CalmClear(s, held);
    }
  }

  /** If one page is one page, any free page will do. */
  lemma OnePageFits(s: PM)
    requires Shape(s) && s.width == 1 && s.free != [] && Managed(s.free[0])
    ensures Fit(s, true) && Clear(s)
  {
  }

  lemma ClearedLive(s: PM, held: set<int>, gone: set<Slot>, c: int)
    requires InvX(s, held, gone)
    requires forall sl :: sl in gone ==> sl.page in s.tables
    requires Clear(s) && Container(s, c)
    ensures 0 <= c < NPAGES && !(s.free[0] <= c < s.free[0] + s.width)
  {
    ContainerIsLive(s, held, gone, c);
  }

  // ---- a cleared page becomes a table

  ghost predicate CanAddTable(s: PM, d: int, i: int, attr: int) {
    && 0 <= i < ENTRIES && 0 <= attr < PGSIZE && attr % 2 == 1 && !Present(At(s.mem, d, i))
    && (d in s.dirs || (d == s.kern && s.dirs == {})) && Clear(s)
  }

  /** What adding a table at page p means for the words the invariant reads. */
  ghost predicate TableAdded(s: PM, s1: PM, d: int, i: int, p: int) {
    && s1.kern == s.kern && s1.dirs == s.dirs && s1.tables == s.tables[p := Slot(d, i)]
    && 0 <= d < NPAGES && 0 <= i < ENTRIES && Managed(p)
    && !Container(s, p) && !Present(At(s.mem, d, i)) && d !in s.tables
    && ((d in s.dirs && d != s.kern && !Present(At(s.mem, s.kern, i))) || (d == s.kern && s.dirs == {}))
    && |s1.mem| == |s.mem| == NPAGES
    && PointsTo(s1, Slot(d, i), p)
    && (forall j :: At(s1.mem, p, j) == 0)
    && (forall c, j :: Container(s, c) && (c != d || j != i) ==> At(s1.mem, c, j) == At(s.mem, c, j))
  }

  lemma AddTableAdds(s: PM, held: set<int>, d: int, i: int, attr: int)
    requires InvX(s, held, {}) && CanAddTable(s, d, i, attr)
    ensures Managed(s.free[0]) && TableAdded(s, AddTable(s, d, i, attr), d, i, s.free[0])
  {
    hide Expected, CountsOk, SlotsOk, OwnersOk, LeavesOk;
    var p := s.free[0];
    assert Managed(p);
    PteFields(p, attr);
    if Container(s, p) {
      ContainerIsLive(s, held, {}, p);
    }
    ContainerIsLive(s, held, {}, d);
    var s1 := AddTable(s, d, i, attr);
    forall c, j | Container(s, c) && (c != d || j != i)
      ensures At(s1.mem, c, j) == At(s.mem, c, j)
    {
      ClearedLive(s, held, {}, c);
    }
    ClearedLive(s, held, {}, d);
  }

  lemma AddedRefs(s: PM, s1: PM, d: int, i: int, p: int, g: int)
    requires Shape(s) && TableAdded(s, s1, d, i, p)
    ensures Refs(s1, g) == Refs(s, g) + (if g == p then {Slot(d, i)} else {})
    ensures Slot(d, i) !in Refs(s, g)
  {
    InAllSlots(d, i);
    forall sl | sl in AllSlots()
      ensures sl in Refs(s1, g) <==> sl in Refs(s, g) + (if g == p then {Slot(d, i)} else {})
    {
      if s.dirs != {} {
        assert At(s1.mem, s.kern, sl.idx) == At(s.mem, s.kern, sl.idx);
      }
    }
  }

  lemma AddedCount(s: PM, s1: PM, d: int, i: int, p: int, g: int)
    requires Shape(s) && TableAdded(s, s1, d, i, p)
    ensures Expected(s1, {}, g) == Expected(s, {}, g) + (if g == p then 1 else 0)
  {
    AddedRefs(s, s1, d, i, p, g);
    assert Refs(s, g) - {} == Refs(s, g) && Refs(s1, g) - {} == Refs(s1, g);
  }

  lemma AddedSlots(s: PM, s1: PM, d: int, i: int, p: int)
    requires Shape(s) && SlotsOk(s) && TableAdded(s, s1, d, i, p)
    ensures SlotsOk(s1)
  {
    forall c, j | 0 <= j < ENTRIES && IsOwn(s1, c, j) && Present(At(s1.mem, c, j))
      ensures OwnedTable(s1, c, j) || (c == s1.kern && Frame(At(s1.mem, c, j)) < FIRST_MANAGED)
    {
      if c != d || j != i {
        assert IsOwn(s, c, j);
        assert At(s1.mem, c, j) == At(s.mem, c, j);
      }
    }
  }

  lemma AddedOwners(s: PM, s1: PM, d: int, i: int, p: int)
    requires Shape(s) && OwnersOk(s) && TableAdded(s, s1, d, i, p)
    ensures OwnersOk(s1)
  {
    forall u | u in s1.tables
      ensures IsOwn(s1, s1.tables[u].page, s1.tables[u].idx) && PointsTo(s1, s1.tables[u], u)
    {
      if u != p {
        assert IsOwn(s, s.tables[u].page, s.tables[u].idx);
        assert s.tables[u] != Slot(d, i);
      }
    }
  }

  lemma AddedRest(s: PM, s1: PM, d: int, i: int, p: int)
    requires Shape(s) && DirsOk(s) && SharedOk(s) && TableAdded(s, s1, d, i, p)
    ensures DirsOk(s1) && SharedOk(s1)
  {
  }

  lemma AddedLeaves(s: PM, s1: PM, d: int, i: int, p: int)
    requires Shape(s) && LeavesOk(s) && TableAdded(s, s1, d, i, p)
    requires forall t, j :: t in s.tables && 0 <= j < ENTRIES && Present(At(s.mem, t, j)) ==> Frame(At(s.mem, t, j)) != p
    ensures LeavesOk(s1)
  {
  }

  lemma FreshUnmapped(s: PM, held: set<int>, p: int)
    requires InvX(s, held, {}) && (p in s.free || p in held) && Managed(p)
    ensures forall t, j :: t in s.tables && 0 <= j < ENTRIES && Present(At(s.mem, t, j)) ==> Frame(At(s.mem, t, j)) != p
  {
    forall t, j | t in s.tables && 0 <= j < ENTRIES && Present(At(s.mem, t, j))
      ensures Frame(At(s.mem, t, j)) != p
    {
      if Frame(At(s.mem, t, j)) == p {
        PointedIsLive(s, held, {}, Slot(t, j), p);
      }
    }
  }

  lemma AddTableKeeps(s: PM, held: set<int>, d: int, i: int, attr: int)
    requires InvX(s, held, {}) && CanAddTable(s, d, i, attr)
    ensures InvX(AddTable(s, d, i, attr), held, {})
  {
    AddTableAdds(s, held, d, i, attr);
    AddTableCounts(s, d, i, attr);
    AddTableFree(s, held, d, i, attr);
    AddTableTree(s, held, d, i, attr);
  }

  lemma AddTableCounts(s: PM, d: int, i: int, attr: int)
    requires Shape(s) && CountsOk(s, {}) && CanAddTable(s, d, i, attr) && Managed(s.free[0])
    requires TableAdded(s, AddTable(s, d, i, attr), d, i, s.free[0])
    ensures CountsOk(AddTable(s, d, i, attr), {})
  {
    hide Expected, TableAdded;
    var s1 := AddTable(s, d, i, attr);
    forall g | Managed(g)
      ensures RefAt(s1.refs, g) == Expected(s1, {}, g)
    {
      AddedCount(s, s1, d, i, s.free[0], g);
    }
  }

  lemma AddTableFree(s: PM, held: set<int>, d: int, i: int, attr: int)
    requires Shape(s) && FreeOk(s, held) && CanAddTable(s, d, i, attr)
    ensures FreeOk(AddTable(s, d, i, attr), held)
  {
    CountedPop(s, held);
  }

  /** Taking the first free page and counting it once. */
  lemma CountedPop(s: PM, held: set<int>)
    requires Shape(s) && FreeOk(s, held) && s.free != []
    ensures FreeOk(Pop(s).(refs := AddRef(s.refs, s.free[0], 1)), held)
  {
    var p, rest := s.free[0], s.free[1..];
    assert s.free == [p] + rest;
    assert p !in rest;
    assert forall f :: f in s.free <==> f == p || f in rest;
  }

  lemma AddTableTree(s: PM, held: set<int>, d: int, i: int, attr: int)
    requires InvX(s, held, {}) && CanAddTable(s, d, i, attr) && Managed(s.free[0])
    requires TableAdded(s, AddTable(s, d, i, attr), d, i, s.free[0])
    ensures Tree(AddTable(s, d, i, attr))
  {
    var p, s1 := s.free[0], AddTable(s, d, i, attr);
    FreshUnmapped(s, held, p);
    AddedSlots(s, s1, d, i, p);
    AddedOwners(s, s1, d, i, p);
    AddedRest(s, s1, d, i, p);
    AddedLeaves(s, s1, d, i, p);
  }

  // ---- a page becomes a process directory

  ghost predicate DirAdded(s: PM, s1: PM, p: int) {
    && s1.kern == s.kern && s1.tables == s.tables && s1.dirs == s.dirs + {p}
    && Managed(p) && !Container(s, p) && |s1.mem| == |s.mem| == NPAGES
    && (forall j :: At(s1.mem, p, j) == At(s.mem, s.kern, j))
    && (forall c, j :: Container(s, c) ==> At(s1.mem, c, j) == At(s.mem, c, j))
  }

  lemma NewDirAdds(s: PM, held: set<int>)
    requires InvX(s, held, {}) && Clear(s)
    ensures DirAdded(s, NewDir(s), s.free[0])
  {
    hide Expected, CountsOk, SlotsOk, OwnersOk, SharedOk, LeavesOk;
    var p, s1 := s.free[0], NewDir(s);
    if Container(s, p) {
      ContainerIsLive(s, held, {}, p);
    }
    forall c, j | Container(s, c)
      ensures At(s1.mem, c, j) == At(s.mem, c, j)
    {
      ClearedLive(s, held, {}, c);
    }
    ClearedLive(s, held, {}, s.kern);
  }

  lemma DirAddedCount(s: PM, s1: PM, p: int, g: int)
    requires Shape(s) && DirAdded(s, s1, p)
    ensures Expected(s1, {}, g) == Expected(s, {}, g) + (if g == p then 1 else 0)
  {
    forall sl | sl in AllSlots()
      ensures sl in Refs(s1, g) <==> sl in Refs(s, g)
    {
      assert At(s1.mem, s.kern, sl.idx) == At(s.mem, s.kern, sl.idx);
    }
    assert Refs(s1, g) == Refs(s, g);
  }

  lemma DirAddedSlots(s: PM, s1: PM, p: int)
    requires Shape(s) && SlotsOk(s) && OwnersOk(s) && DirAdded(s, s1, p)
    ensures SlotsOk(s1) && OwnersOk(s1)
  {
    assert forall j :: At(s1.mem, s.kern, j) == At(s.mem, s.kern, j);
    forall c, j | 0 <= j < ENTRIES && IsOwn(s1, c, j) && Present(At(s1.mem, c, j))
      ensures OwnedTable(s1, c, j) || (c == s1.kern && Frame(At(s1.mem, c, j)) < FIRST_MANAGED)
    {
      assert c != p;
      assert IsOwn(s, c, j);
    }
    forall u | u in s1.tables
      ensures IsOwn(s1, s1.tables[u].page, s1.tables[u].idx) && PointsTo(s1, s1.tables[u], u)
    {
      assert IsOwn(s, s.tables[u].page, s.tables[u].idx);
    }
  }

  lemma DirAddedRest(s: PM, s1: PM, p: int)
    requires Shape(s) && DirsOk(s) && SharedOk(s) && LeavesOk(s) && DirAdded(s, s1, p)
    requires forall t, j :: t in s.tables && 0 <= j < ENTRIES && Present(At(s.mem, t, j)) ==> Frame(At(s.mem, t, j)) != p
    ensures DirsOk(s1) && SharedOk(s1) && LeavesOk(s1)
  {
  }

  lemma NewDirCounts(s: PM)
    requires Shape(s) && CountsOk(s, {}) && Clear(s) && DirAdded(s, NewDir(s), s.free[0])
    ensures CountsOk(NewDir(s), {})
  {
    hide Expected, DirAdded;
    var s1 := NewDir(s);
    forall g | Managed(g)
      ensures RefAt(s1.refs, g) == Expected(s1, {}, g)
    {
      DirAddedCount(s, s1, s.free[0], g);
    }
  }

  lemma NewDirKeeps(s: PM, held: set<int>)
    requires InvX(s, held, {}) && Clear(s)
    ensures InvX(NewDir(s), held, {})
  {
    NewDirAdds(s, held);
    NewDirCounts(s);
    CountedPop(s, held);
    FreshUnmapped(s, held, s.free[0]);
    DirAddedSlots(s, NewDir(s), s.free[0]);
    DirAddedRest(s, NewDir(s), s.free[0]);
  }

  // ---- taking a page without counting it yet, and overwriting pages nothing refers to

  lemma PopKeeps(s: PM, held: set<int>)
    requires InvX(s, held, {}) && s.free != []
    ensures Managed(s.free[0]) && s.free[0] !in held
    ensures InvX(Pop(s), held + {s.free[0]}, {})
  {
    PopFree(s, held);
    SameTreeTree(s, Pop(s));
    forall g | Managed(g)
      ensures RefAt(s.refs, g) == Expected(Pop(s), {}, g)
    {
      SameRefs(s, Pop(s), g);
    }
  }

  lemma PopFree(s: PM, held: set<int>)
    requires Shape(s) && FreeOk(s, held) && s.free != []
    ensures FreeOk(Pop(s), held + {s.free[0]})
  {
    var p, rest := s.free[0], s.free[1..];
    assert s.free == [p] + rest;
    assert p !in rest;
  }

  /** Overwriting pages that are no directory and no table keeps the invariant. */
  lemma OverwriteKeeps(s: PM, held: set<int>, m: seq<Page>)
    requires InvX(s, held, {}) && |m| == |s.mem|
    requires forall c, i :: Container(s, c) ==> At(m, c, i) == At(s.mem, c, i)
    ensures InvX(s.(mem := m), held, {})
  {
    SameTreeInv(s, s.(mem := m), held, {});
  }
}
