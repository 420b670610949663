/** The whole-memory invariant of kernel/src/paging/pmap.c: the free list holds exactly
    the managed pages that nothing refers to, each managed page is counted once for every
    directory or table slot that points at it, and page tables are never shared. */
module PageInvariant {
  import opened Sequences
  import opened Mmu
  import opened PageSpec

  ghost predicate Shape(s: PM) {
    |s.mem| == NPAGES && |s.refs| == NPAGES && 0 <= s.kern < FIRST_MANAGED && 1 <= s.width <= WIDTH
  }

  /** The free list has no duplicates and holds exactly the managed pages with count zero,
      apart from pages that an operation under way has taken and not yet counted. */
  ghost predicate FreeOk(s: PM, held: set<int>) {
    && Distinct(s.free)
    && (forall f :: f in s.free ==> Managed(f) && f !in held)
    && (forall f :: Managed(f) ==> (RefAt(s.refs, f) == 0 <==> f in s.free || f in held))
  }

  /** The slots of directory c that belong to c alone: those the kernel directory does not
      fill, and for the kernel directory all of them. */
  ghost predicate IsOwn(s: PM, c: int, i: int) {
    c == s.kern || (c in s.dirs && !Present(At(s.mem, s.kern, i)))
  }

  ghost predicate IsCounted(s: PM, sl: Slot) {
    sl.page in s.tables || IsOwn(s, sl.page, sl.idx)
  }

  ghost predicate PointsTo(s: PM, sl: Slot, f: int) {
    Present(At(s.mem, sl.page, sl.idx)) && Frame(At(s.mem, sl.page, sl.idx)) == f
  }

  ghost function AllSlots(): set<Slot> {
    set c, i | 0 <= c < NPAGES && 0 <= i < ENTRIES :: Slot(c, i)
  }

  /** The slots that count as references to page f. */
  ghost function Refs(s: PM, f: int): set<Slot> {
    set sl | sl in AllSlots() && IsCounted(s, sl) && PointsTo(s, sl, f)
  }

  ghost function DirCount(s: PM, f: int): nat { if f in s.dirs then 1 else 0 }

  /** The count page f should have: its slots, without those in `gone` whose reference was
      already given back, and one more when f is itself a process directory. */
  ghost function Expected(s: PM, gone: set<Slot>, f: int): nat {
    |Refs(s, f) - gone| + DirCount(s, f)
  }

  ghost predicate CountsOk(s: PM, gone: set<Slot>) {
    forall f :: Managed(f) ==> RefAt(s.refs, f) == Expected(s, gone, f)
  }

  ghost predicate OwnedTable(s: PM, c: int, i: int) {
    var t := Frame(At(s.mem, c, i));
    t in s.tables && s.tables[t] == Slot(c, i)
  }

  /** Directory slots and table entries point where they should. */
  ghost predicate Tree(s: PM) {
    DirsOk(s) && SlotsOk(s) && OwnersOk(s) && SharedOk(s) && LeavesOk(s)
  }

  ghost predicate DirsOk(s: PM) {
    && (forall d :: d in s.dirs ==> Managed(d) && d !in s.tables)
    && (forall t :: t in s.tables ==> Managed(t))
  }

  /** A present own slot points at a table it alone owns, or at the kernel's linear map. */
  ghost predicate SlotsOk(s: PM) {
    forall c, i :: 0 <= i < ENTRIES && IsOwn(s, c, i) && Present(At(s.mem, c, i)) ==>
      OwnedTable(s, c, i) || (c == s.kern && Frame(At(s.mem, c, i)) < FIRST_MANAGED)
  }

  ghost predicate OwnersOk(s: PM) {
    forall t :: t in s.tables ==>
      && 0 <= s.tables[t].idx < ENTRIES
      && IsOwn(s, s.tables[t].page, s.tables[t].idx)
      && PointsTo(s, s.tables[t], t)
  }

  /** The slots the kernel directory fills are shared by every directory. */
  ghost predicate SharedOk(s: PM) {
    forall d, i :: d in s.dirs && 0 <= i < ENTRIES && Present(At(s.mem, s.kern, i)) ==>
      At(s.mem, d, i) == At(s.mem, s.kern, i)
  }

  /** No entry maps a directory or a table, and process tables map managed pages. */
  ghost predicate LeavesOk(s: PM) {
    forall t, i :: t in s.tables && 0 <= i < ENTRIES && Present(At(s.mem, t, i)) ==>
      LeafOk(s, t, Frame(At(s.mem, t, i)))
  }

  ghost predicate LeafOk(s: PM, t: int, f: int) {
    && 0 <= f < NPAGES && f !in s.dirs && f !in s.tables && f != s.kern
    && (t in s.tables && s.tables[t].page != s.kern ==> Managed(f))
  }

  ghost predicate InvX(s: PM, held: set<int>, gone: set<Slot>) {
    Shape(s) && FreeOk(s, held) && CountsOk(s, gone) && Tree(s)
  }

  ghost predicate Inv(s: PM) { InvX(s, {}, {}) }

  /** Directories and tables: the pages whose words the invariant reads. */
  ghost predicate Container(s: PM, c: int) {
    c == s.kern || c in s.dirs || c in s.tables
  }

  // ---- consequences

  lemma InAllSlots(c: int, i: int)
    requires 0 <= c < NPAGES && 0 <= i < ENTRIES
    ensures Slot(c, i) in AllSlots()
  {
  }

  /** A managed page that some counted slot points at has a positive count. */
  lemma PointedIsLive(s: PM, held: set<int>, gone: set<Slot>, sl: Slot, f: int)
    requires InvX(s, held, gone)
    requires IsCounted(s, sl) && 0 <= sl.page < NPAGES && 0 <= sl.idx < ENTRIES && sl !in gone
    requires PointsTo(s, sl, f) && Managed(f)
    ensures RefAt(s.refs, f) > 0 && f !in s.free && f !in held
  {
    InAllSlots(sl.page, sl.idx);
    assert sl in Refs(s, f) - gone;
    assert RefAt(s.refs, f) == Expected(s, gone, f);
  }

  /** Directories and tables are never on the free list. */
  lemma ContainerIsLive(s: PM, held: set<int>, gone: set<Slot>, c: int)
    requires InvX(s, held, gone)
    requires forall sl :: sl in gone ==> sl.page in s.tables
    requires Container(s, c)
    ensures 0 <= c < NPAGES && c !in s.free && (Managed(c) ==> c !in held && RefAt(s.refs, c) > 0)
  {
    if c in s.tables {
      PointedIsLive(s, held, gone, s.tables[c], c);
    } else if c in s.dirs {
      assert RefAt(s.refs, c) == Expected(s, gone, c);
    }
  }

  // ---- the invariant reads containers only

  ghost predicate SameTree(s: PM, s1: PM) {
    && s1.kern == s.kern && s1.dirs == s.dirs && s1.tables == s.tables
    && |s1.mem| == |s.mem| && s1.width == s.width
    && (forall c, i :: Container(s, c) ==> At(s1.mem, c, i) == At(s.mem, c, i))
  }

  lemma SameRefs(s: PM, s1: PM, f: int)
    requires SameTree(s, s1)
    ensures Refs(s1, f) == Refs(s, f)
  {
    forall sl | sl in AllSlots()
      ensures sl in Refs(s1, f) <==> sl in Refs(s, f)
    {
      assert At(s1.mem, s.kern, sl.idx) == At(s.mem, s.kern, sl.idx);
    }
  }

  lemma SameTreeInv(s: PM, s1: PM, held: set<int>, gone: set<Slot>)
    requires InvX(s, held, gone) && SameTree(s, s1)
    requires s1.refs == s.refs && s1.free == s.free
    ensures InvX(s1, held, gone)
  {
    forall f | Managed(f)
      ensures RefAt(s1.refs, f) == Expected(s1, gone, f)
    {
      SameRefs(s, s1, f);
      assert RefAt(s.refs, f) == Expected(s, gone, f);
    }
    SameTreeTree(s, s1);
  }

  lemma SameTreeTree(s: PM, s1: PM)
    requires Tree(s) && SameTree(s, s1)
    ensures Tree(s1)
  {
    forall c, i | 0 <= i < ENTRIES && IsOwn(s1, c, i) && Present(At(s1.mem, c, i))
      ensures OwnedTable(s1, c, i) || (c == s1.kern && Frame(At(s1.mem, c, i)) < FIRST_MANAGED)
    {
      assert IsOwn(s, c, i);
    }
    forall t | t in s1.tables
      ensures IsOwn(s1, s1.tables[t].page, s1.tables[t].idx) && PointsTo(s1, s1.tables[t], t)
    {
      assert IsOwn(s, s.tables[t].page, s.tables[t].idx);
    }
  }
}
