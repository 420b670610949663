/** free_pgdir, and the round trip: freeing a copy restores the free list. */
module PageTeardown {
  import opened Sequences
  import opened Mmu
  import opened PageSpec
  import opened PageInvariant
  import opened PageSteps
  import opened PageMapping
  import opened PageCopy

  // ---- the entries of one table

  lemma {:induction false} FreeEntriesKeep(s: PM, t: int, i: int)
    requires InvX(s, {}, Done(t, i)) && ProcessTable(s, t) && 0 <= i <= ENTRIES
    ensures InvX(FreeEntries(s, t, i), {}, Done(t, ENTRIES))
    ensures FreeEntries(s, t, i).mem == s.mem && FreeEntries(s, t, i).kern == s.kern
    ensures FreeEntries(s, t, i).dirs == s.dirs && FreeEntries(s, t, i).tables == s.tables && FreeEntries(s, t, i).width == s.width
    decreases ENTRIES - i
  {
    hide InvX;
    if i < ENTRIES {
      FreeEntryKeeps(s, t, i);
      FreeEntriesKeep(FreeEntry(s, t, i), t, i + 1);
    }
  }

  // ---- one directory slot

  ghost predicate OwnPresent(s: PM, d: int, i: int) {
    Present(At(s.mem, d, i)) && !SharedSlot(s, i)
  }

  lemma OwnSlotDrops(s: PM, d: int, i: int)
    requires Inv(s) && d in s.dirs && 0 <= i < ENTRIES && OwnPresent(s, d, i)
    ensures ProcessTable(s, Frame(At(s.mem, d, i))) && CanDrop(s, d, i, Frame(At(s.mem, d, i)))
  {
    hide FreeOk, CountsOk, SharedOk, LeavesOk;
    SlotTarget(s, d, i);
    assert IsOwn(s, d, i);
    DirLive(s, d);
    TableLive(s, Frame(At(s.mem, d, i)));
  }

  lemma FreeSlotKeeps(s: PM, d: int, i: int)
    requires Inv(s) && d in s.dirs && 0 <= i < ENTRIES
    ensures Inv(FreeSlot(s, d, i))
    ensures FreeSlot(s, d, i).kern == s.kern && FreeSlot(s, d, i).dirs == s.dirs && FreeSlot(s, d, i).width == s.width
    ensures FreeSlot(s, d, i).mem == if OwnPresent(s, d, i) then Put(s.mem, d, i, 0) else s.mem
    ensures FreeSlot(s, d, i).tables == if OwnPresent(s, d, i) then s.tables - {Frame(At(s.mem, d, i))} else s.tables
  {
    hide InvX, CanDrop;
    if OwnPresent(s, d, i) {
      var t := Frame(At(s.mem, d, i));
      OwnSlotDrops(s, d, i);
      assert Done(t, 0) == {};
      FreeEntriesKeep(s, t, 0);
      CanDropSame(s, FreeEntries(s, t, 0), d, i, t);
      DropKeeps(FreeEntries(s, t, 0), d, i, t);
    }
  }

  lemma CanDropSame(s: PM, s1: PM, d: int, i: int, t: int)
    requires CanDrop(s, d, i, t)
    requires s1.mem == s.mem && s1.kern == s.kern && s1.dirs == s.dirs && s1.tables == s.tables
    ensures CanDrop(s1, d, i, t)
  {
  }

  // ---- the whole directory

  /** What freeing the slots of directory d from i on does to directories and tables. */
  ghost predicate Freed(s: PM, s1: PM, d: int, i: int) {
    && s1.kern == s.kern && s1.dirs == s.dirs && |s1.mem| == |s.mem| && s1.width == s.width
    && (forall c :: c != d ==> PageAt(s1.mem, c) == PageAt(s.mem, c))
    && (forall j :: At(s1.mem, d, j) ==
          if i <= j < ENTRIES && OwnPresent(s, d, j) then 0 else At(s.mem, d, j))
    && (forall t :: t in s1.tables <==> t in s.tables && !(s.tables[t].page == d && i <= s.tables[t].idx < ENTRIES))
    && (forall t :: t in s1.tables ==> s1.tables[t] == s.tables[t])
  }

  lemma FreeSlotFreed(s: PM, d: int, i: int)
    requires Inv(s) && d in s.dirs && 0 <= i < ENTRIES
    ensures Inv(FreeSlot(s, d, i))
    ensures var s1 := FreeSlot(s, d, i);
      && s1.kern == s.kern && s1.dirs == s.dirs && |s1.mem| == |s.mem| && s1.width == s.width
      && (forall c :: c != d ==> PageAt(s1.mem, c) == PageAt(s.mem, c))
      && (forall j :: At(s1.mem, d, j) == if j == i && OwnPresent(s, d, j) then 0 else At(s.mem, d, j))
      && (forall t :: t in s1.tables <==> t in s.tables && s.tables[t] != Slot(d, i))
      && (forall t :: t in s1.tables ==> s1.tables[t] == s.tables[t])
  {
    hide FreeOk, CountsOk, SlotsOk, SharedOk, LeavesOk, FreeSlot;
    FreeSlotKeeps(s, d, i);
    DirLive(s, d);
    if OwnPresent(s, d, i) {
      OwnSlotDrops(s, d, i);
    }
    assert forall t :: t in s.tables && s.tables[t] == Slot(d, i) ==> PointsTo(s, Slot(d, i), t);
    assert forall t :: t in s.tables && s.tables[t] == Slot(d, i) ==> IsOwn(s, d, i);
  }

  lemma {:induction false} FreeDirKeeps(s: PM, d: int, i: int)
    requires Inv(s) && d in s.dirs && 0 <= i <= ENTRIES
    ensures Inv(FreeDir(s, d, i)) && Freed(s, FreeDir(s, d, i), d, i)
    decreases ENTRIES - i
  {
    hide InvX, FreeSlot;
    if i < ENTRIES {
      FreeSlotFreed(s, d, i);
      DirLive(s, d);
      FreeDirKeeps(FreeSlot(s, d, i), d, i + 1);
      FreedJoin(s, FreeSlot(s, d, i), FreeDir(s, d, i), d, i);
    }
  }

  lemma FreedJoin(s: PM, s1: PM, s2: PM, d: int, i: int)
    requires 0 <= i < ENTRIES && d != s.kern
    requires s1.kern == s.kern && s1.dirs == s.dirs && |s1.mem| == |s.mem| && s1.width == s.width
    requires forall c :: c != d ==> PageAt(s1.mem, c) == PageAt(s.mem, c)
    requires forall j :: At(s1.mem, d, j) == if j == i && OwnPresent(s, d, j) then 0 else At(s.mem, d, j)
    requires forall t :: t in s1.tables <==> t in s.tables && s.tables[t] != Slot(d, i)
    requires forall t :: t in s1.tables ==> s1.tables[t] == s.tables[t]
    requires Freed(s1, s2, d, i + 1)
    ensures Freed(s, s2, d, i)
  {
    assert forall j :: At(s1.mem, s.kern, j) == At(s.mem, s.kern, j) by {
      assert PageAt(s1.mem, s.kern) == PageAt(s.mem, s.kern);
    }
  }

  // ---- which references go, and which pages become free

  /** The slots that belong to process directory d alone: its own slots and the entries of
      the tables it owns. */
  ghost predicate Belongs(s: PM, d: int, sl: Slot) {
    (sl.page == d && IsOwn(s, d, sl.idx)) || (sl.page in s.tables && s.tables[sl.page].page == d)
  }

  lemma FreeDirRefs(s: PM, d: int, f: int)
    requires Inv(s) && d in s.dirs
    ensures Refs(FreeDir(s, d, 0), f) == set sl | sl in Refs(s, f) && !Belongs(s, d, sl)
  {
    hide InvX, FreeDir;
    FreeDirKeeps(s, d, 0);
    DirLive(s, d);
    FreedRefs(s, FreeDir(s, d, 0), d, f);
  }

  lemma FreedRefs(s: PM, s1: PM, d: int, f: int)
    requires Inv(s) && Freed(s, s1, d, 0) && d in s.dirs && d != s.kern && d !in s.tables
    ensures Refs(s1, f) == set sl | sl in Refs(s, f) && !Belongs(s, d, sl)
  {
    hide FreeOk, CountsOk, SlotsOk, SharedOk, LeavesOk;
    forall sl | sl in AllSlots()
      ensures sl in Refs(s1, f) <==> sl in Refs(s, f) && !Belongs(s, d, sl)
    {
      assert PageAt(s1.mem, s.kern) == PageAt(s.mem, s.kern);
      assert At(s1.mem, s.kern, sl.idx) == At(s.mem, s.kern, sl.idx);
      if sl.page != d {
        assert PageAt(s1.mem, sl.page) == PageAt(s.mem, sl.page);
        assert At(s1.mem, sl.page, sl.idx) == At(s.mem, sl.page, sl.idx);
      }
    }
  }

  /** After free_pgdir a page is free exactly when it was free before or everything that
      referred to it belonged to d. */
  lemma FreeDirReturns(s: PM, d: int, f: int)
    requires Inv(s) && d in s.dirs && Managed(f)
    ensures f in FreeDir(s, d, 0).free <==>
        f !in s.dirs && (forall sl :: sl in Refs(s, f) ==> Belongs(s, d, sl))
  {
    hide InvX, FreeDir, Refs, Belongs;
    FreeDirKeeps(s, d, 0);
    FreeDirRefs(s, d, f);
    FreeIffUnreferenced(FreeDir(s, d, 0), f);
    assert forall sl :: sl in Refs(FreeDir(s, d, 0), f) <==> sl in Refs(s, f) && !Belongs(s, d, sl);
  }

  lemma FreeIffUnreferenced(s: PM, f: int)
    requires Inv(s) && Managed(f)
    ensures f in s.free <==> f !in s.dirs && Refs(s, f) == {}
    ensures RefAt(s.refs, f) == |Refs(s, f)| + DirCount(s, f)
  {
    hide Tree;
    assert RefAt(s.refs, f) == Expected(s, {}, f);
    assert Refs(s, f) - {} == Refs(s, f);
    if |Refs(s, f)| == 0 {
      assert Refs(s, f) == {};
    }
  }

  // ---- copy, then free: the allocator is back where it was

  /** dst has no table of its own, as a directory fresh from pcb_create. */
  ghost predicate NoOwnTables(s: PM, dst: int) {
    forall i :: 0 <= i < ENTRIES ==> !OwnPresent(s, dst, i)
  }

  lemma CopyThenFreeTables(s: PM, dst: int, s2: PM, s3: PM, full: bool)
    requires OwnersOk(s) && dst in s.dirs && NoOwnTables(s, dst) && dst != s.kern
    requires Grows(s, s2, dst, 0, ENTRIES, full) && Freed(s2, s3, dst, 0)
    ensures s3.tables == s.tables
  {
    forall t | t in s.tables
      ensures s.tables[t].page != dst
    {
      assert !OwnPresent(s, dst, s.tables[t].idx);
    }
    forall t
      ensures t in s3.tables <==> t in s.tables
    {
      if t in s2.tables && t !in s.tables {
        assert s2.tables[t].page == dst;
      }
    }
    assert s3.tables.Keys == s.tables.Keys;
    assert forall t :: t in s.tables ==> s3.tables[t] == s.tables[t];
  }

  lemma CopyThenFreeWords(s: PM, dst: int, s2: PM, s3: PM, full: bool)
    requires SharedOk(s) && SharedOk(s2) && dst in s.dirs && NoOwnTables(s, dst) && dst != s.kern && s.kern !in s.free
    requires Grows(s, s2, dst, 0, ENTRIES, full) && Freed(s2, s3, dst, 0)
    ensures forall f :: Kept(s, f, full) && f != dst ==> PageAt(s3.mem, f) == PageAt(s.mem, f)
    ensures forall i :: 0 <= i < ENTRIES && (Present(At(s3.mem, dst, i)) || Present(At(s.mem, dst, i))) ==>
        At(s3.mem, dst, i) == At(s.mem, dst, i)
  {
    assert Kept(s, s.kern, full);
    assert PageAt(s2.mem, s.kern) == PageAt(s.mem, s.kern);
    assert forall i :: At(s2.mem, s.kern, i) == At(s.mem, s.kern, i);
    forall i | 0 <= i < ENTRIES && (Present(At(s3.mem, dst, i)) || Present(At(s.mem, dst, i)))
      ensures At(s3.mem, dst, i) == At(s.mem, dst, i)
    {
      assert !OwnPresent(s, dst, i);
      assert SharedSlot(s2, i) == SharedSlot(s, i);
    }
  }

  lemma SamePresentRefs(s: PM, s3: PM, dst: int, f: int, full: bool)
    requires Inv(s) && dst in s.dirs && dst != s.kern && s3.kern == s.kern && s3.dirs == s.dirs && s3.tables == s.tables
    requires forall g :: Kept(s, g, full) && g != dst ==> PageAt(s3.mem, g) == PageAt(s.mem, g)
    requires forall i :: 0 <= i < ENTRIES && (Present(At(s3.mem, dst, i)) || Present(At(s.mem, dst, i))) ==>
        At(s3.mem, dst, i) == At(s.mem, dst, i)
    requires |s3.mem| == |s.mem|
    ensures Refs(s3, f) == Refs(s, f)
  {
    hide CountsOk, Tree, FreeOk;
    ContainerIsLive(s, {}, {}, s.kern);
    assert Kept(s, s.kern, full);
    assert PageAt(s3.mem, s.kern) == PageAt(s.mem, s.kern);
    forall sl | sl in AllSlots()
      ensures sl in Refs(s3, f) <==> sl in Refs(s, f)
    {
      assert At(s3.mem, s.kern, sl.idx) == At(s.mem, s.kern, sl.idx);
      if Container(s, sl.page) && sl.page != dst {
        ContainerIsLive(s, {}, {}, sl.page);
        assert Kept(s, sl.page, full);
        assert PageAt(s3.mem, sl.page) == PageAt(s.mem, sl.page);
        assert At(s3.mem, sl.page, sl.idx) == At(s.mem, sl.page, sl.idx);
      }
    }
  }

  /** A process copied by fork into a directory without tables and torn down again leaves
      every count and the set of free pages as they were; in full, every page in use too. */
  lemma CopyThenFree(s: PM, dst: int, src: int, f: int, full: bool)
    requires Inv(s) && CanCopyDir(s, dst, src, 0, full) && NoOwnTables(s, dst) && Managed(f)
    ensures var s3 := FreeDir(CopyDir(s, dst, src, 0), dst, 0);
      && Inv(s3)
      && (f in s3.free <==> f in s.free)
      && RefAt(s3.refs, f) == RefAt(s.refs, f)
      && (full && f !in s.free && f != dst ==> PageAt(s3.mem, f) == PageAt(s.mem, f))
  {
    hide InvX, CopyDir, FreeDir, Grows, Freed, CanCopyDir, NoOwnTables, Refs;
    CopyDirGuard(s, dst, src, full);
    var s2 := CopyDir(s, dst, src, 0);
    var s3 := FreeDir(s2, dst, 0);
    CopyDirCopies(s, dst, src, 0, full);
    assert s2.dirs == s.dirs by { GrowsDirs(s, s2, dst, full); }
    FreeDirKeeps(s2, dst, 0);
    CopyThenFreeSame(s, dst, s2, s3, full);
    DirLive(s, dst);
    SamePresentRefs(s, s3, dst, f, full);
    FreeIffUnreferenced(s, f);
    FreeIffUnreferenced(s3, f);
    assert full && f !in s.free ==> Kept(s, f, full);
  }

  lemma GrowsDirs(s: PM, s2: PM, dst: int, full: bool)
    requires Grows(s, s2, dst, 0, ENTRIES, full)
    ensures s2.dirs == s.dirs && s2.width == s.width
  {
  }

  lemma CopyThenFreeSame(s: PM, dst: int, s2: PM, s3: PM, full: bool)
    requires Inv(s) && Inv(s2) && dst in s.dirs && NoOwnTables(s, dst)
    requires Grows(s, s2, dst, 0, ENTRIES, full) && Freed(s2, s3, dst, 0)
    ensures s3.kern == s.kern && s3.dirs == s.dirs && s3.tables == s.tables && |s3.mem| == |s.mem| && s3.width == s.width
    ensures forall g :: Kept(s, g, full) && g != dst ==> PageAt(s3.mem, g) == PageAt(s.mem, g)
    ensures forall i :: 0 <= i < ENTRIES && (Present(At(s3.mem, dst, i)) || Present(At(s.mem, dst, i))) ==>
        At(s3.mem, dst, i) == At(s.mem, dst, i)
  {
    hide NoOwnTables, FreeOk, CountsOk, SlotsOk, OwnersOk, SharedOk, LeavesOk;
    DirLive(s, dst);
    ContainerIsLive(s, {}, {}, s.kern);
    CopyThenFreeTables(s, dst, s2, s3, full);
    CopyThenFreeWords(s, dst, s2, s3, full);
  }

  // ---- round trips with helpers that copy and clear one page

  function RoundTrip(s: PM, dst: int, src: int): PM { FreeDir(CopyDir(s, dst, src, 0), dst, 0) }

  /** All a round trip needs, if one page is one page: enough free pages. */
  ghost predicate CanTrip(s: PM, dst: int, src: int) {
    && Inv(s) && s.width == 1 && dst in s.dirs && src in s.dirs && NoOwnTables(s, dst)
    && NeedDir(s, dst, src, 0) <= |s.free|
  }

  /** The copy torn down again leaves counts, free pages and contents as they were, and can be
      made again on the free list it leaves. */
  lemma OnePageRoundTrip(s: PM, dst: int, src: int, f: int)
    requires CanTrip(s, dst, src) && Managed(f)
    ensures var s3 := RoundTrip(s, dst, src);
      && CanTrip(s3, dst, src)
      && (f in s3.free <==> f in s.free)
      && RefAt(s3.refs, f) == RefAt(s.refs, f)
      && (f !in s.free && f != dst ==> PageAt(s3.mem, f) == PageAt(s.mem, f))
  {
    hide InvX, CopyDir, FreeDir, CanCopyDir, NoOwnTables, NeedDir;
    EnoughForDir(s, dst, src, 0);
    CopyThenFree(s, dst, src, f, true);
    TripAgain(s, dst, src);
  }

  lemma TripAgain(s: PM, dst: int, src: int)
    requires CanTrip(s, dst, src) && CanCopyDir(s, dst, src, 0, true)
    ensures CanTrip(RoundTrip(s, dst, src), dst, src)
  {
    hide InvX, CopyDir, FreeDir, CanCopyDir, Grows, Freed, NoOwnTables, NeedDir;
    var s2, s3 := CopyDir(s, dst, src, 0), RoundTrip(s, dst, src);
    CopyDirCopies(s, dst, src, 0, true);
    GrowsDirs(s, s2, dst, true);
    FreeDirKeeps(s2, dst, 0);
    CopyThenFreeSame(s, dst, s2, s3, true);
    forall f | Managed(f) ensures f in s3.free <==> f in s.free { CopyThenFree(s, dst, src, f, true); }
    SameFreeLen(s, s3);
    TripNeeds(s, s3, dst, src);
  }

  lemma TripNeeds(s: PM, s3: PM, dst: int, src: int)
    requires Inv(s) && NoOwnTables(s, dst) && dst in s.dirs && src in s.dirs && s3.kern == s.kern
    requires forall g :: Kept(s, g, true) && g != dst ==> PageAt(s3.mem, g) == PageAt(s.mem, g)
    requires forall i :: 0 <= i < ENTRIES && (Present(At(s3.mem, dst, i)) || Present(At(s.mem, dst, i))) ==>
        At(s3.mem, dst, i) == At(s.mem, dst, i)
    ensures NoOwnTables(s3, dst) && NeedDir(s3, dst, src, 0) == NeedDir(s, dst, src, 0)
  {
    hide InvX;
    DirLive(s, dst);
    ContainerIsLive(s, {}, {}, s.kern);
    assert Kept(s, s.kern, true);
    assert forall i :: At(s3.mem, s.kern, i) == At(s.mem, s.kern, i);
    forall i | 0 <= i < ENTRIES
      ensures !OwnPresent(s3, dst, i)
    {
      assert !OwnPresent(s, dst, i);
      assert SharedSlot(s3, i) == SharedSlot(s, i);
    }
    forall i | 0 <= i < ENTRIES
      ensures NeedSlot(s3, dst, src, i) == NeedSlot(s, dst, src, i)
    {
      TripNeed(s, s3, dst, src, i);
    }
    SameNeeds(s, s3, dst, src, 0);
  }

  lemma TripNeed(s: PM, s3: PM, dst: int, src: int, i: int)
    requires Inv(s) && dst in s.dirs && src in s.dirs && 0 <= i < ENTRIES
    requires forall g :: Kept(s, g, true) && g != dst ==> PageAt(s3.mem, g) == PageAt(s.mem, g)
    requires Present(At(s3.mem, dst, i)) || Present(At(s.mem, dst, i)) ==> At(s3.mem, dst, i) == At(s.mem, dst, i)
    ensures NeedSlot(s3, dst, src, i) == NeedSlot(s, dst, src, i)
  {
    hide InvX, NeedPage;
    DirLive(s, src);
    if src != dst {
      assert Kept(s, src, true);
      assert At(s3.mem, src, i) == At(s.mem, src, i);
    }
    if Copies(s, dst, src, i) {
      SourceTable(s, dst, src, i);
      assert Kept(s, Frame(At(s.mem, src, i)), true);
    }
  }

  lemma {:induction false} SameNeeds(s: PM, s3: PM, dst: int, src: int, i: nat)
    requires forall j :: 0 <= j < ENTRIES ==> NeedSlot(s3, dst, src, j) == NeedSlot(s, dst, src, j)
    ensures NeedDir(s3, dst, src, i) == NeedDir(s, dst, src, i)
    decreases ENTRIES - i
  {
    hide NeedSlot;
    if i < ENTRIES {
      SameNeeds(s, s3, dst, src, i + 1);
    }
  }

  lemma {:induction false} DistinctCard(q: seq<int>)
    requires Distinct(q)
    ensures |set f | f in q| == |q|
  {
    if q != [] {
      DistinctCard(q[1..]);
      assert q == [q[0]] + q[1..];
      assert q[0] !in q[1..];
      assert (set f | f in q) == (set f | f in q[1..]) + {q[0]};
    }
  }

  lemma SameFreeLen(s: PM, s3: PM)
    requires Inv(s) && Inv(s3) && forall f :: Managed(f) ==> (f in s3.free <==> f in s.free)
    ensures |s3.free| == |s.free|
  {
    hide CountsOk, Tree;
    DistinctCard(s.free);
    DistinctCard(s3.free);
    assert (set f | f in s.free) == (set f | f in s3.free);
  }

  function Trips(s: PM, dst: int, src: int, n: nat): PM {
    if n == 0 then s else RoundTrip(Trips(s, dst, src, n - 1), dst, src)
  }

  /** Any number of round trips, one after the other: the allocator is where it was. */
  lemma {:induction false} EveryTrip(s: PM, dst: int, src: int, n: nat, f: int)
    requires CanTrip(s, dst, src) && Managed(f)
    ensures CanTrip(Trips(s, dst, src, n), dst, src)
    ensures f in Trips(s, dst, src, n).free <==> f in s.free
    ensures RefAt(Trips(s, dst, src, n).refs, f) == RefAt(s.refs, f)
  {
    hide CanTrip, RoundTrip;
    if n > 0 {
      EveryTrip(s, dst, src, n - 1, f);
      OnePageRoundTrip(Trips(s, dst, src, n - 1), dst, src, f);
    }
  }
}
