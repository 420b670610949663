/** The helpers of pmap.c count double words (kernel/include/common.h:20-26), so that clearing
    or copying a page overwrites those behind it too.  When exactly the invariant survives this,
    for a new table, a new directory and a copied page. */
module PageOverrun {
  import opened Mmu
  import opened PageSpec
  import opened PageInvariant
  import opened PageSteps
  import opened PageMapping
  import opened PageOverwrite
  import opened PageCopy
  import opened PageTeardown

  // ---- the state as it would be if one page were one page

  function Narrow(s: PM): PM { s.(width := 1) }

  function Widen(s: PM, w: int): PM { s.(width := w) }

  lemma WidthInv(s: PM, held: set<int>, w: int)
    requires InvX(s, held, {}) && 1 <= w <= WIDTH
    ensures InvX(s.(width := w), held, {})
  {
    hide FreeOk, Refs;
    var s1 := s.(width := w);
    assert FreeOk(s1, held) by { WidthFree(s, held, w); }
    forall f | Managed(f)
      ensures RefAt(s1.refs, f) == Expected(s1, {}, f)
    {
      WidthRefs(s, w, f);
      assert RefAt(s.refs, f) == Expected(s, {}, f);
    }
    WidthTree(s, w);
  }

  lemma WidthFree(s: PM, held: set<int>, w: int)
    requires FreeOk(s, held)
    ensures FreeOk(s.(width := w), held)
  {
  }

  lemma WidthRefs(s: PM, w: int, f: int)
    ensures Refs(s.(width := w), f) == Refs(s, f)
  {
  }

  lemma WidthTree(s: PM, w: int)
    requires Tree(s)
    ensures Tree(s.(width := w))
  {
    var s1 := s.(width := w);
    forall c, i | 0 <= i < ENTRIES && IsOwn(s1, c, i) && Present(At(s1.mem, c, i))
      ensures OwnedTable(s1, c, i) || (c == s1.kern && Frame(At(s1.mem, c, i)) < FIRST_MANAGED)
    {
      assert IsOwn(s, c, i);
    }
    forall t | t in s1.tables
      ensures IsOwn(s1, s1.tables[t].page, s1.tables[t].idx) && PointsTo(s1, s1.tables[t], t)
    {
      assert IsOwn(s, s.tables[t].page, s.tables[t].idx);
    }
  }

  /** There is a free page, and the pages overwritten with it exist. */
  ghost predicate Reach(s: PM) { s.free != [] && s.free[0] + s.width <= NPAGES }

  lemma NarrowFits(s: PM, held: set<int>)
    requires InvX(s, held, {}) && Reach(s)
    ensures InvX(Narrow(s), held, {}) && Clear(Narrow(s)) && Managed(s.free[0])
  {
    hide CountsOk, Tree, Refs;
    WidthInv(s, held, 1);
  }

  lemma XShape(s: PM, held: set<int>)
    requires InvX(s, held, {})
    ensures Shape(s) && Tree(s)
  {
  }

  lemma DirNotKern(s: PM)
    requires Shape(s) && DirsOk(s)
    ensures s.kern !in s.dirs
  {
  }

  // ---- pgdir_walk: a new table

  ghost predicate TableSlot(s: PM, d: int, i: int, attr: int) {
    && d in s.dirs && 0 <= i < ENTRIES && 0 <= attr < PGSIZE && attr % 2 == 1 && !Present(At(s.mem, d, i))
  }

  /** The directories and tables behind the first free page have nothing to lose: no present
      entry, unless it maps a device page in a table of the kernel. */
  ghost predicate BlankBehind(s: PM) {
    s.free != [] ==>
      forall c, j :: s.free[0] < c < s.free[0] + s.width && 0 <= j < ENTRIES && Container(s, c) && Present(At(s.mem, c, j)) ==>
        c in s.tables && !Managed(Frame(At(s.mem, c, j)))
  }

  /** Making a table keeps the invariant if and only if nothing is lost behind it. */
  lemma AddTableIff(s: PM, held: set<int>, d: int, i: int, attr: int)
    requires InvX(s, held, {}) && TableSlot(s, d, i, attr) && Reach(s)
    ensures InvX(AddTable(s, d, i, attr), held, {}) <==> BlankBehind(s)
  {
    hide InvX, AddTable, BlankBehind, Survives, Only, Clear, TableAdded;
    var p := s.free[0];
    NarrowFits(s, held);
    var x := Widen(AddTable(Narrow(s), d, i, attr), s.width);
    var y := AddTable(s, d, i, attr);
    AddTableKeeps(Narrow(s), held, d, i, attr);
    AddTableAdds(Narrow(s), held, d, i, attr);
    assert Shape(s) by { XShape(s, held); }
    WidthInv(AddTable(Narrow(s), d, i, attr), held, s.width);
    TableOverwrite(s, d, i, attr);
    OverwriteIff(x, held, y.mem, p + 1, p + s.width);
    TableWords(s, held, d, i, attr);
    BlankSurvives(s, held, x, y.mem, d, i);
  }

  lemma TableOverwrite(s: PM, d: int, i: int, attr: int)
    requires Shape(s) && s.free != []
    ensures var x, y := Widen(AddTable(Narrow(s), d, i, attr), s.width), AddTable(s, d, i, attr);
      y == x.(mem := y.mem) && Only(x, y.mem, s.free[0] + 1, s.free[0] + s.width)
  {
    hide Pte;
  }

  /** Once the words are as they should be, nothing else about the operation matters. */
  lemma BlankSurvives(s: PM, held: set<int>, x: PM, m: seq<Page>, d: int, i: int)
    requires InvX(s, held, {}) && TableSlotOf(s, d, i) && TableWordsAre(s, x, m, d, i) && Managed(s.free[0])
    ensures Survives(x, m, s.free[0] + 1, s.free[0] + s.width) <==> BlankBehind(s)
  {
    hide InvX, BlankBehind, Survives, TableWordsAre;
    assert s.free != [] by { assert TableWordsAre(s, x, m, d, i); WordsFree(s, x, m, d, i); }
    if BlankBehind(s) {
      BlankSpares(s, held, x, m, d, i);
    }
    if Survives(x, m, s.free[0] + 1, s.free[0] + s.width) {
      SparedBlank(s, held, x, m, d, i);
    }
  }

  lemma WordsFree(s: PM, x: PM, m: seq<Page>, d: int, i: int)
    requires TableWordsAre(s, x, m, d, i)
    ensures s.free != []
  {
  }

  /** The words behind the new table: as before in x, cleared in m, but for the new slot. */
  ghost predicate TableWordsAre(s: PM, x: PM, m: seq<Page>, d: int, i: int) {
    && x.kern == s.kern && x.dirs == s.dirs && s.free != [] && x.tables == s.tables[s.free[0] := Slot(d, i)]
    && (forall j :: At(x.mem, s.kern, j) == At(s.mem, s.kern, j))
    && (forall c, j :: s.free[0] < c < s.free[0] + s.width && (c != d || j != i) ==> At(x.mem, c, j) == At(s.mem, c, j) && At(m, c, j) == 0)
    && At(x.mem, d, i) == At(m, d, i) && d != s.kern
  }

  lemma TableWords(s: PM, held: set<int>, d: int, i: int, attr: int)
    requires InvX(s, held, {}) && TableSlot(s, d, i, attr) && Reach(s) && Managed(s.free[0])
    ensures TableWordsAre(s, Widen(AddTable(Narrow(s), d, i, attr), s.width), AddTable(s, d, i, attr).mem, d, i)
  {
    hide FreeOk, CountsOk, SlotsOk, OwnersOk, SharedOk, LeavesOk, Pte;
    ContainerIsLive(s, held, {}, d);
    assert d != s.kern by { DirNotKern(s); }
    var x, y := Widen(AddTable(Narrow(s), d, i, attr), s.width), AddTable(s, d, i, attr);
    forall c, j | s.free[0] < c < s.free[0] + s.width && (c != d || j != i)
      ensures At(x.mem, c, j) == At(s.mem, c, j) && At(y.mem, c, j) == 0
    {
      BlankAt(j);
    }
  }

  lemma BlankAt(j: int)
    ensures 0 <= j < ENTRIES ==> ZeroPage()[j] == 0
  {
  }

  lemma BlankSpares(s: PM, held: set<int>, x: PM, m: seq<Page>, d: int, i: int)
    requires InvX(s, held, {}) && TableSlotOf(s, d, i) && BlankBehind(s) && TableWordsAre(s, x, m, d, i)
    ensures Survives(x, m, s.free[0] + 1, s.free[0] + s.width)
  {
    hide FreeOk, CountsOk, SlotsOk, OwnersOk, LeavesOk;
    var lo, hi := s.free[0] + 1, s.free[0] + s.width;
    forall c, j | c in x.dirs && lo <= c < hi && 0 <= j < ENTRIES
      ensures SlotSpared(x, m, c, j)
    {
      assert Container(s, c);
      assert Present(At(s.mem, c, j)) ==> c in s.tables;
      assert Present(At(s.mem, s.kern, j)) ==> At(s.mem, c, j) == At(s.mem, s.kern, j);
    }
    forall f | Managed(f)
      ensures Entries(x, m, lo, hi, f) == {} && Entries(x, x.mem, lo, hi, f) == {}
    {
      forall sl | sl in AllSlots() && sl.page in x.tables && lo <= sl.page < hi
        ensures sl !in Entries(x, m, lo, hi, f) && sl !in Entries(x, x.mem, lo, hi, f)
      {
        assert Container(s, sl.page);
      }
    }
  }

  predicate TableSlotOf(s: PM, d: int, i: int) { d in s.dirs && 0 <= i < ENTRIES && !Present(At(s.mem, d, i)) }

  lemma SparedBlank(s: PM, held: set<int>, x: PM, m: seq<Page>, d: int, i: int)
    requires InvX(s, held, {}) && TableSlotOf(s, d, i) && TableWordsAre(s, x, m, d, i)
    requires Survives(x, m, s.free[0] + 1, s.free[0] + s.width) && Managed(s.free[0])
    ensures BlankBehind(s)
  {
    hide FreeOk, CountsOk, SlotsOk, OwnersOk, SharedOk, LeavesOk, Entries;
    var lo, hi := s.free[0] + 1, s.free[0] + s.width;
    ContainerIsLive(s, held, {}, s.kern);
    forall c, j | lo <= c < hi && 0 <= j < ENTRIES && Container(s, c) && Present(At(s.mem, c, j))
      ensures c in s.tables && !Managed(Frame(At(s.mem, c, j)))
    {
      ContainerIsLive(s, held, {}, c);
      assert c in s.dirs ==> SlotSpared(x, m, c, j);
      if c in s.tables && Managed(Frame(At(s.mem, c, j))) {
        LostEntry(s, held, x, m, d, i, c, j);
      }
    }
  }

  lemma LostEntry(s: PM, held: set<int>, x: PM, m: seq<Page>, d: int, i: int, c: int, j: int)
    requires InvX(s, held, {}) && TableSlotOf(s, d, i) && TableWordsAre(s, x, m, d, i) && c in s.tables && 0 <= c < NPAGES
    requires s.free[0] < c < s.free[0] + s.width && 0 <= j < ENTRIES && Present(At(s.mem, c, j))
    ensures var f, lo, hi := Frame(At(s.mem, c, j)), s.free[0] + 1, s.free[0] + s.width;
      |Entries(x, m, lo, hi, f)| != |Entries(x, x.mem, lo, hi, f)|
  {
    hide FreeOk, CountsOk, SlotsOk, OwnersOk, SharedOk, LeavesOk;
    var f, lo, hi := Frame(At(s.mem, c, j)), s.free[0] + 1, s.free[0] + s.width;
    InAllSlots(c, j);
    assert Slot(c, j) in Entries(x, x.mem, lo, hi, f);
    forall sl | sl in AllSlots()
      ensures sl !in Entries(x, m, lo, hi, f)
    {
      assert sl.page in s.tables ==> sl.page != d;
    }
    assert Entries(x, m, lo, hi, f) == {};
  }

  // ---- pcb_create: a new directory

  /** Making a directory keeps the invariant if and only if the directories and tables behind
      it survive what the copy puts there, the pages behind the kernel directory. */
  lemma NewDirIff(s: PM)
    requires Inv(s) && Reach(s) && s.kern + s.width <= FIRST_MANAGED
    ensures Inv(NewDir(s)) <==>
      Survives(s, Copied(s.mem, s.free[0], s.kern, s.width), s.free[0] + 1, s.free[0] + s.width)
  {
    hide InvX, NewDir, Survives, Only, Clear;
    var p := s.free[0];
    NarrowFits(s, {});
    var x, y := Widen(NewDir(Narrow(s)), s.width), NewDir(s);
    NewDirKeeps(Narrow(s), {});
    assert 1 <= s.width <= WIDTH && 0 <= s.kern by { InvShape(s); }
    WidthInv(NewDir(Narrow(s)), {}, s.width);
    assert Shape(s) by { InvShape(s); }
    DirOverwrite(s);
    OverwriteIff(x, {}, y.mem, p + 1, p + s.width);
    DirSurvives(s, x, y.mem, Copied(s.mem, p, s.kern, s.width));
  }

  lemma DirOverwrite(s: PM)
    requires Shape(s) && Reach(s) && Managed(s.free[0]) && s.kern + s.width <= FIRST_MANAGED
    ensures var p, x, y := s.free[0], Widen(NewDir(Narrow(s)), s.width), NewDir(s);
      && y == x.(mem := y.mem) && Only(x, y.mem, p + 1, p + s.width)
      && x.kern == s.kern && x.tables == s.tables && x.dirs == s.dirs + {p}
      && (forall c :: c != p ==> PageAt(x.mem, c) == PageAt(s.mem, c))
      && (forall c :: p < c < p + s.width ==> PageAt(y.mem, c) == PageAt(Copied(s.mem, p, s.kern, s.width), c))
  {
    hide NewDir, Copied;
    forall c
      ensures PageAt(NewDir(s).mem, c) == DirPage(s, c) && PageAt(NewDir(Narrow(s)).mem, c) == DirPage(Narrow(s), c)
    {
      NewDirPage(s, c);
      NewDirPage(Narrow(s), c);
    }
    NewDirRest(s);
    NewDirRest(Narrow(s));
  }

  /** Page c after a new directory was made. */
  ghost function DirPage(s: PM, c: int): Page
    requires s.free != []
  {
    if c == s.free[0] then PageAt(s.mem, s.kern)
    else if s.free[0] < c < s.free[0] + s.width then PageAt(Copied(s.mem, s.free[0], s.kern, s.width), c)
    else PageAt(s.mem, c)
  }

  lemma NewDirPage(s: PM, c: int)
    requires Shape(s) && Reach(s) && Managed(s.free[0]) && s.kern + s.width <= FIRST_MANAGED
    ensures PageAt(NewDir(s).mem, c) == DirPage(s, c)
  {
    hide Copied;
    var p, z := s.free[0], Zeroed(s.mem, s.free[0], s.width);
    if p <= c < p + s.width {
      CopiedBehind(z, p, s.kern, s.width, c - p);
      CopiedBehind(s.mem, p, s.kern, s.width, c - p);
    } else {
      CopiedFrame(z, p, s.kern, s.width);
    }
    CopiedFrame(z, p, s.kern, s.width);
    CopiedFrame(s.mem, p, s.kern, s.width);
  }

  lemma NewDirRest(s: PM)
    requires s.free != []
    ensures NewDir(s) == s.(mem := NewDir(s).mem, refs := AddRef(s.refs, s.free[0], 1), free := s.free[1..], dirs := s.dirs + {s.free[0]})
    ensures |NewDir(s).mem| == |s.mem|
  {
  }

  /** What memcpy destroys: each page behind the target is replaced by the one behind the
      source, as long as the source has not been overwritten before. */
  lemma CopiedBehind(m: seq<Page>, dst: int, src: int, w: int, j: nat)
    requires j < w && 0 <= dst && dst + j < |m| && 0 <= src && src + j < |m|
    requires !(dst <= src + j < dst + j)
    ensures Copied(m, dst, src, w)[dst + j] == m[src + j]
  {
    CopyFromBehind(m, dst, src, w, 0, j);
  }

  lemma {:induction false} CopyFromBehind(m: seq<Page>, dst: int, src: int, w: int, i: nat, j: nat)
    requires i <= j < w && 0 <= dst && dst + j < |m| && 0 <= src && src + j < |m|
    requires !(dst + i <= src + j < dst + j)
    ensures CopyFrom(m, dst, src, w, i)[dst + j] == m[src + j]
    decreases j - i
  {
    if i < j {
      CopyFromBehind(m[dst + i := PageAt(m, src + i)], dst, src, w, i + 1, j);
    }
  }

  /** The same condition before and after the new directory itself is in place. */
  lemma DirSurvives(s: PM, x: PM, m: seq<Page>, m1: seq<Page>)
    requires Inv(s) && Reach(s) && x.kern == s.kern && x.tables == s.tables && x.dirs == s.dirs + {s.free[0]}
    requires forall c :: c != s.free[0] ==> PageAt(x.mem, c) == PageAt(s.mem, c)
    requires forall c :: s.free[0] < c < s.free[0] + s.width ==> PageAt(m, c) == PageAt(m1, c)
    requires Managed(s.free[0])
    ensures var lo, hi := s.free[0] + 1, s.free[0] + s.width;
      Survives(x, m, lo, hi) <==> Survives(s, m1, lo, hi)
  {
    hide InvX, DirsSpared, LeavesSpared, CountsSpared;
    assert Shape(s) by { InvShape(s); }
    DirDirs(s, x, m, m1);
    DirCounts(s, x, m, m1);
    if CountsSpared(s, m1, s.free[0] + 1, s.free[0] + s.width) {
      DirLeaves(s, x, m, m1);
    }
  }

  lemma DirDirs(s: PM, x: PM, m: seq<Page>, m1: seq<Page>)
    requires Shape(s) && s.free != [] && x.kern == s.kern && x.dirs == s.dirs + {s.free[0]} && Managed(s.free[0])
    requires forall c :: c != s.free[0] ==> PageAt(x.mem, c) == PageAt(s.mem, c)
    requires forall c :: s.free[0] < c < s.free[0] + s.width ==> PageAt(m, c) == PageAt(m1, c)
    ensures var lo, hi := s.free[0] + 1, s.free[0] + s.width;
      DirsSpared(x, m, lo, hi) <==> DirsSpared(s, m1, lo, hi)
  {
    var lo, hi := s.free[0] + 1, s.free[0] + s.width;
    forall c, i | lo <= c < hi
      ensures SlotSpared(x, m, c, i) == SlotSpared(s, m1, c, i)
    {
      assert At(x.mem, s.kern, i) == At(s.mem, s.kern, i) by { assert PageAt(x.mem, s.kern) == PageAt(s.mem, s.kern); }
      assert At(x.mem, c, i) == At(s.mem, c, i) by { assert PageAt(x.mem, c) == PageAt(s.mem, c); }
      assert At(m, c, i) == At(m1, c, i) by { assert PageAt(m, c) == PageAt(m1, c); }
    }
  }

  lemma DirCounts(s: PM, x: PM, m: seq<Page>, m1: seq<Page>)
    requires s.free != [] && x.tables == s.tables
    requires forall c :: c != s.free[0] ==> PageAt(x.mem, c) == PageAt(s.mem, c)
    requires forall c :: s.free[0] < c < s.free[0] + s.width ==> PageAt(m, c) == PageAt(m1, c)
    ensures var lo, hi := s.free[0] + 1, s.free[0] + s.width;
      && (CountsSpared(x, m, lo, hi) <==> CountsSpared(s, m1, lo, hi))
      && forall f :: Entries(x, m, lo, hi, f) == Entries(s, m1, lo, hi, f)
  {
    var lo, hi := s.free[0] + 1, s.free[0] + s.width;
    forall f
      ensures Entries(x, m, lo, hi, f) == Entries(s, m1, lo, hi, f)
      ensures Entries(x, x.mem, lo, hi, f) == Entries(s, s.mem, lo, hi, f)
    {
      forall sl | sl in AllSlots() && lo <= sl.page < hi
        ensures At(m, sl.page, sl.idx) == At(m1, sl.page, sl.idx) && At(x.mem, sl.page, sl.idx) == At(s.mem, sl.page, sl.idx)
      {
        assert PageAt(m, sl.page) == PageAt(m1, sl.page) && PageAt(x.mem, sl.page) == PageAt(s.mem, sl.page);
      }
    }
  }

  /** With the counts spared, no entry maps the new directory. */
  lemma DirLeaves(s: PM, x: PM, m: seq<Page>, m1: seq<Page>)
    requires Inv(s) && s.free != [] && x.kern == s.kern && x.tables == s.tables && x.dirs == s.dirs + {s.free[0]}
    requires forall c :: s.free[0] < c < s.free[0] + s.width ==> PageAt(m, c) == PageAt(m1, c)
    requires Managed(s.free[0]) && CountsSpared(s, m1, s.free[0] + 1, s.free[0] + s.width)
    ensures var lo, hi := s.free[0] + 1, s.free[0] + s.width;
      LeavesSpared(x, m, lo, hi) <==> LeavesSpared(s, m1, lo, hi)
  {
    hide FreeOk, CountsOk, SlotsOk, OwnersOk, SharedOk, LeavesOk, CountsSpared, Entries;
    var p, lo, hi := s.free[0], s.free[0] + 1, s.free[0] + s.width;
    forall t, i | t in s.tables && lo <= t < hi && 0 <= i < ENTRIES
      ensures At(m, t, i) == At(m1, t, i) && (Present(At(m1, t, i)) ==> Frame(At(m1, t, i)) != p)
    {
      assert PageAt(m, t) == PageAt(m1, t);
      TableLive(s, t);
      NoEntryTo(s, m1, lo, hi, t, i);
    }
  }

  lemma NoEntryTo(s: PM, m: seq<Page>, lo: int, hi: int, t: int, i: int)
    requires Inv(s) && s.free != [] && Managed(s.free[0]) && CountsSpared(s, m, lo, hi)
    requires t in s.tables && lo <= t < hi && 0 <= i < ENTRIES && Managed(t)
    ensures Present(At(m, t, i)) ==> Frame(At(m, t, i)) != s.free[0]
  {
    hide CountsOk, SlotsOk, OwnersOk, SharedOk, LeavesOk;
    FreshUnmapped(s, {}, s.free[0]);
    assert Entries(s, s.mem, lo, hi, s.free[0]) == {};
    assert |Entries(s, m, lo, hi, s.free[0])| == 0;
    InAllSlots(t, i);
    assert Slot(t, i) !in Entries(s, m, lo, hi, s.free[0]);
  }

  // ---- copy_pgdir: a copied page

  ghost predicate EntryToCopy(s: PM, t: int, st: int, i: int) {
    && t in s.tables && st in s.tables && st != t && 0 <= i < ENTRIES && s.tables[st].page != s.kern
    && !Present(At(s.mem, t, i)) && Present(At(s.mem, st, i))
  }

  /** The memory with the new entry in place, before the page is copied. */
  function EntryPlaced(s: PM, t: int, st: int, i: int): seq<Page>
    requires s.free != []
  {
    Put(s.mem, t, i, Pte(s.free[0], Attr(At(s.mem, st, i))))
  }

  /** Copying a page keeps the invariant if and only if the directories and tables behind the
      new page, the new entry included, survive being replaced by the pages behind the source. */
  lemma CopyEntryIff(s: PM, t: int, st: int, i: int)
    requires Inv(s) && EntryToCopy(s, t, st, i) && Reach(s)
    ensures var m, f := EntryPlaced(s, t, st, i), Frame(At(s.mem, st, i));
      Inv(CopyEntry(s, t, st, i)) <==>
        Survives(s.(mem := m), Copied(m, s.free[0], f, s.width), s.free[0] + 1, s.free[0] + s.width)
  {
    hide InvX, CopyEntry, Survives, Only, Clear, Copied, Put;
    var p := s.free[0];
    NarrowFits(s, {});
    var x0 := CopyEntry(Narrow(s), t, st, i);
    var x, y := Widen(x0, s.width), CopyEntry(s, t, st, i);
    CopyEntryKeeps(Narrow(s), t, st, i, false);
    assert 1 <= s.width <= WIDTH && Shape(s) by { InvShape(s); }
    WidthInv(x0, {}, s.width);
    EntryOverwrite(s, t, st, i);
    OverwriteIff(x, {}, y.mem, p + 1, p + s.width);
    EntryWords(s, t, st, i);
    SameSurvival(x, s.(mem := EntryPlaced(s, t, st, i)), y.mem, p + 1, p + s.width);
  }

  lemma EntryWords(s: PM, t: int, st: int, i: int)
    requires Shape(s) && Reach(s) && EntryToCopy(s, t, st, i) && Managed(s.free[0])
    ensures var m, x := EntryPlaced(s, t, st, i), Widen(CopyEntry(Narrow(s), t, st, i), s.width);
      && CopyEntry(s, t, st, i).mem == Copied(m, s.free[0], Frame(At(s.mem, st, i)), s.width)
      && x.kern == s.kern && x.dirs == s.dirs && x.tables == s.tables
      && (forall c :: c != s.free[0] ==> PageAt(x.mem, c) == PageAt(m, c))
  {
    hide Pte;
    CopiedFrame(EntryPlaced(s, t, st, i), s.free[0], Frame(At(s.mem, st, i)), 1);
  }

  /** Survival depends on the directories, the tables and the words in the range. */
  lemma SameSurvival(x: PM, s: PM, m: seq<Page>, lo: int, hi: int)
    requires x.kern == s.kern && x.dirs == s.dirs && x.tables == s.tables
    requires forall c :: c == s.kern || lo <= c < hi ==> PageAt(x.mem, c) == PageAt(s.mem, c)
    ensures Survives(x, m, lo, hi) <==> Survives(s, m, lo, hi)
  {
    assert forall j :: At(x.mem, s.kern, j) == At(s.mem, s.kern, j) by { assert PageAt(x.mem, s.kern) == PageAt(s.mem, s.kern); }
    forall c, j | lo <= c < hi
      ensures At(x.mem, c, j) == At(s.mem, c, j)
    {
      assert PageAt(x.mem, c) == PageAt(s.mem, c);
    }
    assert forall f :: Entries(x, m, lo, hi, f) == Entries(s, m, lo, hi, f);
    assert forall f :: Entries(x, x.mem, lo, hi, f) == Entries(s, s.mem, lo, hi, f);
    assert forall c, j :: lo <= c < hi ==> SlotSpared(x, m, c, j) == SlotSpared(s, m, c, j);
    assert forall t, f :: LeafOk(x, t, f) == LeafOk(s, t, f);
  }

  lemma EntryOverwrite(s: PM, t: int, st: int, i: int)
    requires Shape(s) && Reach(s) && EntryToCopy(s, t, st, i) && Managed(s.free[0])
    ensures var x, y := Widen(CopyEntry(Narrow(s), t, st, i), s.width), CopyEntry(s, t, st, i);
      y == x.(mem := y.mem) && Only(x, y.mem, s.free[0] + 1, s.free[0] + s.width)
  {
    hide Pte;
    var p, e := s.free[0], At(s.mem, st, i);
    var m := Put(s.mem, t, i, Pte(p, Attr(e)));
    CopiedFirst(m, p, Frame(e), s.width);
    CopiedFirst(m, p, Frame(e), 1);
  }

  lemma {:induction false} CopiedFirst(m: seq<Page>, dst: int, src: int, w: int)
    requires 0 <= dst < |m| && w >= 1
    ensures Copied(m, dst, src, w)[dst] == PageAt(m, src)
  {
  }

  /** The harm of the copy: an address mapped through a table k pages behind the new page is
      now mapped as the page k behind the copied one happens to say. */
  lemma CopyRetargets(s: PM, t: int, st: int, i: int, k: nat, d: int, v: int)
    requires Inv(s) && EntryToCopy(s, t, st, i) && Reach(s) && d in s.dirs && 0 <= v < VPNS
    requires 0 < k < s.width && Present(At(s.mem, d, v / ENTRIES)) && TableOf(s, d, v) == s.free[0] + k
    requires !(s.free[0] <= d < s.free[0] + s.width)
    requires var u := Frame(At(s.mem, st, i)) + k; u < NPAGES && u != t && !(s.free[0] <= u < s.free[0] + k)
    ensures Translate(CopyEntry(s, t, st, i), d, v) == EntryMapping(At(s.mem, Frame(At(s.mem, st, i)) + k, v % ENTRIES))
  {
    hide InvX, CopyEntry;
    SourceLive(s, st, i);
    DirLive(s, d);
    TableLive(s, t);
    NarrowFits(s, {});
    assert Shape(s) by { InvShape(s); }
    RetargetWords(s, t, st, i, k, d, v / ENTRIES);
  }

  lemma RetargetWords(s: PM, t: int, st: int, i: int, k: nat, d: int, j: int)
    requires Shape(s) && Reach(s) && 0 < k < s.width && 0 <= t < NPAGES && 0 <= d < NPAGES && d != t && Managed(s.free[0])
    requires Present(At(s.mem, st, i)) && !(s.free[0] <= d < s.free[0] + s.width)
    requires var u := Frame(At(s.mem, st, i)) + k; 0 <= u < NPAGES && u != t && !(s.free[0] <= u < s.free[0] + k)
    ensures At(CopyEntry(s, t, st, i).mem, d, j) == At(s.mem, d, j)
    ensures PageAt(CopyEntry(s, t, st, i).mem, s.free[0] + k) == PageAt(s.mem, Frame(At(s.mem, st, i)) + k)
  {
    hide Pte, Copied;
    var p, e := s.free[0], At(s.mem, st, i);
    var m := Put(s.mem, t, i, Pte(p, Attr(e)));
    CopiedBehind(m, p, Frame(e), s.width, k);
    CopiedFrame(m, p, Frame(e), s.width);
    assert PageAt(Copied(m, p, Frame(e), s.width), d) == PageAt(m, d);
  }
}
