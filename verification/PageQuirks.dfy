/** Further places where pmap.c and its callers do other than the comments say: page_remove of
    an address without a page, because page_lookup does not look at the present bit; the
    directory of a thread; and what clearing a page does to the contents of pages in use.  Each
    with its exact condition. */
module PageQuirks {
  import opened Mmu
  import opened PageSpec
  import opened PageInvariant
  import opened PageSteps
  import opened PageMapping
  import opened PageOverwrite
  import opened PageCopy
  import opened PageTeardown
  import opened PageOverrun

  // ---- contents: clearing

  /** Pages that are not on the free list keep their contents. */
  ghost predicate UsedPagesKept(s: PM, mem: seq<Page>, p: int) {
    forall f :: 0 <= f < NPAGES && f != p && f !in s.free ==> PageAt(mem, f) == PageAt(s.mem, f)
  }

  /** The pages behind p that are cleared too are free, or blank already. */
  ghost predicate NothingToLose(s: PM, p: int) {
    forall f :: p < f < p + s.width && 0 <= f < NPAGES && f !in s.free ==> PageAt(s.mem, f) == ZeroPage()
  }

  /** Clearing page p harms no page in use if and only if the pages behind it are free or blank. */
  lemma ZeroHarmlessIff(s: PM, p: int)
    requires |s.mem| == NPAGES
    ensures UsedPagesKept(s, Zeroed(s.mem, p, s.width), p) <==> NothingToLose(s, p)
  {
    if UsedPagesKept(s, Zeroed(s.mem, p, s.width), p) {
      forall f | p < f < p + s.width && 0 <= f < NPAGES && f !in s.free
        ensures PageAt(s.mem, f) == ZeroPage()
      {
        assert PageAt(Zeroed(s.mem, p, s.width), f) == ZeroPage();
      }
    } else {
      var f :| 0 <= f < NPAGES && f != p && f !in s.free && PageAt(Zeroed(s.mem, p, s.width), f) != PageAt(s.mem, f);
      assert p < f < p + s.width;
    }
  }

  /** A page table behind the new page loses all its mappings. */
  lemma ZeroUnmaps(s: PM, p: int, d: int, v: int)
    requires |s.mem| == NPAGES && 0 <= v && Translate(s, d, v).Mapped?
    requires p < TableOf(s, d, v) < p + s.width && !(p <= d < p + s.width)
    ensures Translate(s.(mem := Zeroed(s.mem, p, s.width)), d, v) == Unmapped
  {
    assert At(Zeroed(s.mem, p, s.width), d, v / ENTRIES) == At(s.mem, d, v / ENTRIES);
    BlankAt(v % ENTRIES);
  }

  // ---- page_remove

  ghost predicate TableThere(s: PM, d: int, v: int) {
    && d in s.dirs && 0 <= v < VPNS && Present(At(s.mem, d, v / ENTRIES)) && TableOf(s, d, v) >= FIRST_MANAGED
  }

  /** There is no table, or the entry there, present or not, names a managed page and is present,
      or names a low page that does not lose its last count. */
  ghost predicate Removable(s: PM, d: int, v: int) {
    var f := Frame(At(s.mem, TableOf(s, d, v), v % ENTRIES));
    !Present(At(s.mem, d, v / ENTRIES))
    || (if Managed(f) then Translate(s, d, v).Mapped? else f < FIRST_MANAGED && RefAt(s.refs, f) != 1)
  }

  lemma RemoveIff(s: PM, d: int, v: int)
    requires Inv(s) && d in s.dirs && 0 <= v < VPNS
    requires Present(At(s.mem, d, v / ENTRIES)) ==> TableOf(s, d, v) >= FIRST_MANAGED
    ensures Inv(RemoveAt(s, d, v)) <==> Removable(s, d, v)
  {
    hide InvX, Remove;
    if Present(At(s.mem, d, v / ENTRIES)) {
      var f := Frame(At(s.mem, TableOf(s, d, v), v % ENTRIES));
      SlotTarget(s, d, v / ENTRIES) by { InvTree(s); }
      if Managed(f) && Translate(s, d, v).Mapped? {
        RemoveKeeps(s, d, v);
      } else if Managed(f) {
        RemoveMiscounts(s, d, v);
      } else if f < FIRST_MANAGED && RefAt(s.refs, f) != 1 {
        RemoveLow(s, d, v);
      } else {
        RemoveFreesLow(s, d, v);
      }
    }
  }

  lemma InvTree(s: PM)
    requires Inv(s)
    ensures Shape(s) && Tree(s) && FreeOk(s, {}) && CountsOk(s, {})
  {
  }

  /** The case of every entry the kernel itself leaves unmapped: it is zero, and page 0 has its
      one count from page_init.  Then page_remove keeps the invariant exactly on mapped pages. */
  lemma RemoveKeepsIff(s: PM, d: int, v: int)
    requires Inv(s) && TableThere(s, d, v) && RefAt(s.refs, 0) == 1
    requires if Translate(s, d, v).Mapped? then Managed(Translate(s, d, v).frame) else At(s.mem, TableOf(s, d, v), v % ENTRIES) == 0
    ensures Inv(Remove(s, d, v)) <==> Translate(s, d, v).Mapped?
  {
    hide InvX, Remove;
    RemoveIff(s, d, v);
  }

  /** An entry that is not present gives up a reference that nobody had taken. */
  lemma RemoveMiscounts(s: PM, d: int, v: int)
    requires Inv(s) && TableThere(s, d, v) && TableOf(s, d, v) in s.tables && !Translate(s, d, v).Mapped?
    requires Managed(Frame(At(s.mem, TableOf(s, d, v), v % ENTRIES)))
    ensures !Inv(Remove(s, d, v))
  {
    hide FreeOk, SlotsOk, OwnersOk, SharedOk, LeavesOk, Expected;
    var t, i := TableOf(s, d, v), v % ENTRIES;
    var f, s1 := Frame(At(s.mem, t, i)), Remove(s, d, v);
    TableLive(s, t) by { assert Inv(s); }
    LeafOneWord(s, s1, t, i, 0);
    OneWordCount(s, s1, Slot(t, i), 0, {}, f);
    assert RefAt(s.refs, f) == Expected(s, {}, f);
    assert RefAt(s1.refs, f) == Expected(s1, {}, f) - 1;
  }

  /** A low page that keeps a count, or has none: nothing the invariant speaks of changes. */
  lemma RemoveLow(s: PM, d: int, v: int)
    requires Inv(s) && TableThere(s, d, v) && TableOf(s, d, v) in s.tables
    requires var f := Frame(At(s.mem, TableOf(s, d, v), v % ENTRIES)); f < FIRST_MANAGED && RefAt(s.refs, f) != 1
    ensures Inv(Remove(s, d, v))
  {
    hide SlotsOk, OwnersOk, SharedOk, LeavesOk, Expected;
    var t, i := TableOf(s, d, v), v % ENTRIES;
    var s1 := Remove(s, d, v);
    TableLive(s, t);
    LeafOneWord(s, s1, t, i, 0);
    LeafTree(s, s1, t, i);
    forall g | Managed(g)
      ensures RefAt(s1.refs, g) == Expected(s1, {}, g)
    {
      OneWordCount(s, s1, Slot(t, i), 0, {}, g);
      assert RefAt(s.refs, g) == Expected(s, {}, g);
    }
  }

  /** A page that is not managed lands on the free list. */
  lemma RemoveFreesLow(s: PM, d: int, v: int)
    requires Inv(s) && TableThere(s, d, v)
    requires var f := Frame(At(s.mem, TableOf(s, d, v), v % ENTRIES)); !Managed(f) && (f >= NPAGES || RefAt(s.refs, f) == 1)
    ensures Frame(At(s.mem, TableOf(s, d, v), v % ENTRIES)) in Remove(s, d, v).free && !Inv(Remove(s, d, v))
  {
    hide CountsOk, Tree;
    var f := Frame(At(s.mem, TableOf(s, d, v), v % ENTRIES));
    assert Remove(s, d, v).free[0] == f;
  }

  // ---- thread_current: the directory of a thread

  /** The memcpy of thread_current: the caller's directory goes over the thread's. */
  function ShareDir(s: PM, son: int, cur: int): PM { s.(mem := Copied(s.mem, son, cur, s.width)) }

  /** The directory of a thread, after pcb_create has made it: copy_pcb, which has given the
      thread its caller's type, runs copy_pgdir if that is a user's; the memcpy follows. */
  function MakeThread(s: PM, son: int, cur: int, user: bool): PM {
    ShareDir(if user then CopyDir(s, son, cur, 0) else s, son, cur)
  }

  /** What the memcpy does to the directories and tables behind the thread's directory. */
  ghost predicate SparedBehind(s: PM, son: int, cur: int) {
    Survives(s, Copied(s.mem, son, cur, s.width), son + 1, son + s.width)
  }

  /** The memcpy keeps the invariant, in which each table has one owner, if and only if neither
      directory has a table of its own, and what lies behind the overwritten one survives. */
  lemma ShareDirIff(s: PM, son: int, cur: int)
    requires Inv(s) && son in s.dirs && cur in s.dirs && son != cur
    ensures Inv(ShareDir(s, son, cur)) <==> NoOwnTables(s, cur) && NoOwnTables(s, son) && SparedBehind(s, son, cur)
  {
    hide InvX, Survives, Only, NoOwnTables, Copied;
    InvTree(s);
    DirLive(s, son);
    DirLive(s, cur);
    var m := Copied(s.mem, son, cur, s.width);
    assert Only(s, m, son, son + s.width) by { ShareOnly(s, son, cur); }
    OverwriteIff(s, {}, m, son, son + s.width);
    CopiedBehind(s.mem, son, cur, s.width, 0);
    CopiedFrame(s.mem, son, cur, s.width);
    ShareSurvives(s, m, son, cur);
  }

  lemma ShareOnly(s: PM, son: int, cur: int)
    ensures Only(s, Copied(s.mem, son, cur, s.width), son, son + s.width)
  {
    CopiedFrame(s.mem, son, cur, s.width);
  }

  lemma ShareSurvives(s: PM, m: seq<Page>, son: int, cur: int)
    requires Inv(s) && son in s.dirs && cur in s.dirs && son != cur && son !in s.tables
    requires |m| == |s.mem| && PageAt(m, son) == PageAt(s.mem, cur)
    ensures Survives(s, m, son, son + s.width) <==>
      NoOwnTables(s, cur) && NoOwnTables(s, son) && Survives(s, m, son + 1, son + s.width)
  {
    hide InvX, NoOwnTables;
    assert 1 <= s.width by { InvShape(s); }
    var lo, hi := son, son + s.width;
    assert forall f :: Entries(s, m, lo, hi, f) == Entries(s, m, lo + 1, hi, f);
    assert forall f :: Entries(s, s.mem, lo, hi, f) == Entries(s, s.mem, lo + 1, hi, f);
    SlotsShared(s, m, son, cur);
  }

  /** Two directories have no table in common, so a slot keeps its target only if both have
      none of their own there. */
  lemma SlotsShared(s: PM, m: seq<Page>, son: int, cur: int)
    requires Inv(s) && son in s.dirs && cur in s.dirs && son != cur && PageAt(m, son) == PageAt(s.mem, cur)
    ensures (forall i :: 0 <= i < ENTRIES ==> SlotSpared(s, m, son, i)) <==> NoOwnTables(s, cur) && NoOwnTables(s, son)
  {
    hide FreeOk, CountsOk, LeavesOk;
    assert forall i :: At(m, son, i) == At(s.mem, cur, i);
    forall i | 0 <= i < ENTRIES
      ensures SlotSpared(s, m, son, i) <==> !OwnPresent(s, cur, i) && !OwnPresent(s, son, i)
    {
      assert OwnPresent(s, cur, i) ==> IsOwn(s, cur, i);
      assert OwnPresent(s, son, i) ==> IsOwn(s, son, i);
    }
  }

  // ---- the whole of it, from the directory that pcb_create made

  /** Making a thread keeps the invariant if and only if the caller has no table of its own, and
      what lies behind the thread's directory survives. */
  lemma ThreadIff(s: PM, son: int, cur: int, user: bool)
    requires Inv(s) && son in s.dirs && cur in s.dirs && son != cur && NoOwnTables(s, son)
    requires user ==> CanCopyDir(s, son, cur, 0, false)
    ensures Inv(MakeThread(s, son, cur, user)) <==> NoOwnTables(s, cur) && SparedBehind(s, son, cur)
  {
    hide InvX, CopyDir, ShareDir, NoOwnTables, CanCopyDir, Grows, SlotCopied, SparedBehind;
    if NoOwnTables(s, cur) {
      NothingToCopy(s, son, cur, 0);
      ShareDirIff(s, son, cur);
    } else if user {
      var s2 := CopyDir(s, son, cur, 0);
      CopyDirCopies(s, son, cur, 0, false);
      GrowsDirs(s, s2, son, false);
      StillOwn(s, s2, son, cur);
      ShareDirIff(s2, son, cur);
    } else {
      ShareDirIff(s, son, cur);
    }
  }

  /** A caller without tables of its own has nothing for copy_pgdir to copy. */
  lemma {:induction false} NothingToCopy(s: PM, son: int, cur: int, i: int)
    requires Inv(s) && son in s.dirs && cur in s.dirs && NoOwnTables(s, cur) && 0 <= i <= ENTRIES
    ensures CopyDir(s, son, cur, i) == s
    decreases ENTRIES - i
  {
    hide InvX;
    if i < ENTRIES {
      assert CopySlot(s, son, cur, i) == s by { NoSlotToCopy(s, son, cur, i); }
      NothingToCopy(s, son, cur, i + 1);
    }
  }

  lemma NoSlotToCopy(s: PM, son: int, cur: int, i: int)
    requires Inv(s) && son in s.dirs && cur in s.dirs && NoOwnTables(s, cur) && 0 <= i < ENTRIES
    ensures CopySlot(s, son, cur, i) == s
  {
    hide FreeOk, CountsOk, SlotsOk, OwnersOk, LeavesOk, AddTable, CopyTable;
    assert !OwnPresent(s, cur, i);
  }

  lemma StillOwn(s: PM, s2: PM, son: int, cur: int)
    requires Inv(s) && Grows(s, s2, son, 0, ENTRIES, false) && son in s.dirs && cur in s.dirs && son != cur && !NoOwnTables(s, cur)
    ensures !NoOwnTables(s2, cur)
  {
    hide InvX;
    DirLive(s, cur);
    DirLive(s, son);
    ContainerIsLive(s, {}, {}, s.kern);
    assert Kept(s, cur, false) && Kept(s, s.kern, false);
    var i :| 0 <= i < ENTRIES && OwnPresent(s, cur, i);
    assert PageAt(s2.mem, cur) == PageAt(s.mem, cur) && PageAt(s2.mem, s.kern) == PageAt(s.mem, s.kern);
    assert OwnPresent(s2, cur, i);
  }

  /** What becomes of the tables that copy_pgdir has just made for the thread, and of the pages
      in them: as long as no directory lies behind the thread's, each keeps its count of one and
      is not free, and no directory leads to the table any more. */
  lemma ThreadLoses(s: PM, son: int, cur: int, i: int, d: int, j: int)
    requires Inv(s) && son in s.dirs && cur in s.dirs && son != cur && NoOwnTables(s, son) && CanCopyDir(s, son, cur, 0, false)
    requires 0 <= i < ENTRIES && OwnPresent(s, cur, i) && d in s.dirs && 0 <= j < ENTRIES
    requires forall c :: son < c < son + s.width ==> c !in s.dirs
    ensures var t, r := Frame(At(CopyDir(s, son, cur, 0).mem, son, i)), MakeThread(s, son, cur, true);
      && Managed(t) && RefAt(r.refs, t) == 1 && t !in r.free
      && (Present(At(r.mem, d, j)) ==> Frame(At(r.mem, d, j)) != t)
      && (forall k :: 0 <= k < ENTRIES && Present(At(s.mem, Frame(At(s.mem, cur, i)), k)) ==>
            var f := Frame(At(CopyDir(s, son, cur, 0).mem, t, k)); RefAt(r.refs, f) == 1 && f !in r.free)
  {
    hide InvX, CopyDir, NoOwnTables, CanCopyDir, Grows, Copied;
    var s2 := CopyDir(s, son, cur, 0);
    var r := MakeThread(s, son, cur, true);
    CopyDirCopies(s, son, cur, 0, false);
    GrowsDirs(s, s2, son, false);
    GrowsKern(s, s2, son);
    assert SlotCopied(s, s2, son, cur, i, false);
    NotYet(s, son, cur, i);
    var t := Frame(At(s2.mem, son, i));
    assert r.refs == s2.refs && r.free == s2.free;
    forall k | 0 <= k < ENTRIES && Present(At(s.mem, Frame(At(s.mem, cur, i)), k))
      ensures RefAt(r.refs, Frame(At(s2.mem, t, k))) == 1 && Frame(At(s2.mem, t, k)) !in r.free
    {
      assert EntryCopied(s, s2, t, Frame(At(s.mem, cur, i)), k, false);
    }
    OwnSlotOf(s2, son, i);
    OneOwner(s2, son, i);
    ShareWords(s2, son, cur, d, j);
    if Present(At(r.mem, d, j)) {
      OtherTarget(s2, son, i, if d == son then cur else d, j);
    }
  }

  lemma GrowsKern(s: PM, s2: PM, son: int)
    requires Inv(s) && Grows(s, s2, son, 0, ENTRIES, false) && son in s.dirs
    ensures s2.kern == s.kern && forall j :: SharedSlot(s2, j) == SharedSlot(s, j)
  {
    hide InvX;
    ContainerIsLive(s, {}, {}, s.kern);
    DirLive(s, son);
    assert Kept(s, s.kern, false);
    assert PageAt(s2.mem, s.kern) == PageAt(s.mem, s.kern);
  }

  lemma NotYet(s: PM, son: int, cur: int, i: int)
    requires Inv(s) && NoOwnTables(s, son) && OwnPresent(s, cur, i) && 0 <= i < ENTRIES
    ensures !Present(At(s.mem, son, i))
  {
    hide InvX;
    assert !OwnPresent(s, son, i);
  }

  lemma OwnSlotOf(s: PM, d: int, i: int)
    requires Inv(s) && d in s.dirs && 0 <= i < ENTRIES && OwnPresent(s, d, i)
    ensures var t := Frame(At(s.mem, d, i)); t in s.tables && s.tables[t] == Slot(d, i) && Managed(t) && t !in s.free && t !in s.dirs
  {
    hide FreeOk, CountsOk, OwnersOk, SharedOk, LeavesOk;
    DirLive(s, d);
    assert IsOwn(s, d, i);
    TableLive(s, Frame(At(s.mem, d, i)));
  }

  /** A table has the one reference of its owner. */
  lemma OneOwner(s: PM, d: int, i: int)
    requires Inv(s) && d in s.dirs && 0 <= i < ENTRIES && OwnPresent(s, d, i)
    ensures RefAt(s.refs, Frame(At(s.mem, d, i))) == 1
  {
    hide FreeOk, SharedOk, DirsOk;
    var t := Frame(At(s.mem, d, i));
    OwnSlotOf(s, d, i);
    DirLive(s, d);
    InAllSlots(d, i);
    forall sl | sl in AllSlots()
      ensures sl in Refs(s, t) <==> sl == Slot(d, i)
    {
      assert sl.page in s.tables && PointsTo(s, sl, t) ==> LeafOk(s, sl.page, t);
      assert IsOwn(s, sl.page, sl.idx) && PointsTo(s, sl, t) ==> OwnedTable(s, sl.page, sl.idx);
    }
    assert Refs(s, t) - {} == {Slot(d, i)};
    assert RefAt(s.refs, t) == Expected(s, {}, t);
  }

  /** After the memcpy: the thread's words are its caller's, those of other directories stay. */
  lemma ShareWords(s: PM, son: int, cur: int, d: int, j: int)
    requires Inv(s) && son in s.dirs && cur in s.dirs && d in s.dirs
    requires forall c :: son < c < son + s.width ==> c !in s.dirs
    ensures At(ShareDir(s, son, cur).mem, d, j) == At(s.mem, if d == son then cur else d, j)
  {
    hide InvX, Copied;
    DirLive(s, son);
    DirLive(s, cur);
    assert 1 <= s.width && Shape(s) by { InvShape(s); }
    CopiedBehind(s.mem, son, cur, s.width, 0);
    CopiedFrame(s.mem, son, cur, s.width);
    if d != son {
      assert PageAt(Copied(s.mem, son, cur, s.width), d) == PageAt(s.mem, d);
    }
  }

  /** No other directory leads to a table of this one. */
  lemma OtherTarget(s: PM, son: int, i: int, d: int, j: int)
    requires Inv(s) && son in s.dirs && d in s.dirs && d != son && 0 <= i < ENTRIES && OwnPresent(s, son, i) && 0 <= j < ENTRIES
    requires Present(At(s.mem, d, j))
    ensures Frame(At(s.mem, d, j)) != Frame(At(s.mem, son, i))
  {
    hide FreeOk, CountsOk, OwnersOk, LeavesOk;
    OwnSlotOf(s, son, i);
    SlotTarget(s, d, j);
    DirLive(s, son);
  }
}
