/** copy_pgdir: the copy translates like the source, page for page, with new frames.
    Guards with `full` also protect the contents of all pages in use; without it, they protect
    directories and tables, which is all that counts and translations depend on. */
module PageCopy {
  import opened Mmu
  import opened PageSpec
  import opened PageInvariant
  import opened PageSteps
  import opened PageMapping

  // ---- the pages a copy needs

  /** The number of present entries of a table from index i on. */
  function NeedPage(pg: Page, i: nat): nat
    decreases ENTRIES - i
  {
    if i >= ENTRIES then 0 else (if Present(pg[i]) then 1 else 0) + NeedPage(pg, i + 1)
  }

  /** The number of pages copy_pgdir takes for directory slot i: one for the table and one
      for each page it maps. */
  function NeedSlot(s: PM, dst: int, src: int, i: int): nat {
    if Present(At(s.mem, src, i)) && !Present(At(s.mem, dst, i))
    then 1 + NeedPage(PageAt(s.mem, Frame(At(s.mem, src, i))), 0) else 0
  }

  function NeedDir(s: PM, dst: int, src: int, i: nat): nat
    decreases ENTRIES - i
  {
    if i >= ENTRIES then 0 else NeedSlot(s, dst, src, i) + NeedDir(s, dst, src, i + 1)
  }

  // ---- what an allocating operation on page x leaves alone

  ghost predicate Suffix(a: seq<int>, b: seq<int>) {
    |a| <= |b| && a == b[|b| - |a|..]
  }

  /** The pages an operation under guard Fit(_, full) leaves alone: all pages in use, or the
      directories, the tables and the low pages with the kernel's own tables. */
  ghost predicate Kept(s: PM, f: int, full: bool) {
    f !in s.free && (full || Container(s, f) || f < FIRST_MANAGED)
  }

  /** From s to s1 pages were taken from the front of the free list; of the pages left alone
      only page x changed, and there only words lo to hi. */
  ghost predicate Grows(s: PM, s1: PM, x: int, lo: int, hi: int, full: bool) {
    && s1.kern == s.kern && s1.dirs == s.dirs && s1.width == s.width
    && |s1.mem| == |s.mem| == NPAGES && |s1.refs| == |s.refs|
    && Suffix(s1.free, s.free)
    && (forall f :: Kept(s, f, full) && f != x ==> PageAt(s1.mem, f) == PageAt(s.mem, f))
    && (forall i :: !(lo <= i < hi) ==> At(s1.mem, x, i) == At(s.mem, x, i))
    && (forall f :: f !in s.free ==> RefAt(s1.refs, f) == RefAt(s.refs, f))
    && (forall t :: t in s.tables ==> t in s1.tables && s1.tables[t] == s.tables[t])
    && (forall t :: t in s1.tables && t !in s.tables ==>
          t in s.free && t !in s1.free && s1.tables[t].page == x && lo <= s1.tables[t].idx < hi)
  }

  lemma KeptLater(s: PM, s1: PM, x: int, lo: int, hi: int, full: bool, f: int)
    requires Grows(s, s1, x, lo, hi, full) && Kept(s, f, full)
    ensures Kept(s1, f, full)
  {
    SuffixIn(s1.free, s.free);
  }

  lemma SuffixTrans(a: seq<int>, b: seq<int>, c: seq<int>)
    requires Suffix(a, b) && Suffix(b, c)
    ensures Suffix(a, c)
    ensures forall f :: f in a ==> f in b
    ensures forall f :: f in b ==> f in c
  {
  }

  lemma GrowsTrans(s: PM, s1: PM, s2: PM, x: int, lo: int, mid: int, hi: int, full: bool)
    requires Grows(s, s1, x, lo, mid, full) && Grows(s1, s2, x, mid, hi, full) && lo <= mid <= hi && x !in s.free
    ensures Grows(s, s2, x, lo, hi, full)
  {
    SuffixTrans(s2.free, s1.free, s.free);
    hide Kept;
    forall f | Kept(s, f, full) && f != x
      ensures PageAt(s2.mem, f) == PageAt(s.mem, f)
    {
      KeptLater(s, s1, x, lo, mid, full, f);
    }
  }

  /** A new table filled inside an operation on directory d. */
  lemma GrowsInside(s: PM, s1: PM, s2: PM, d: int, i: int, t: int, full: bool)
    requires Grows(s, s1, d, i, i + 1, full) && Grows(s1, s2, t, 0, ENTRIES, full) && s2.tables == s1.tables
    requires t in s.free && d !in s.free && d in s.dirs
    ensures Grows(s, s2, d, i, i + 1, full)
  {
    SuffixTrans(s2.free, s1.free, s.free);
    forall f | Kept(s, f, full)
      ensures f != t && Kept(s1, f, full)
    {
      KeptLater(s, s1, d, i, i + 1, full, f);
    }
    assert Kept(s, d, full);
    assert PageAt(s2.mem, d) == PageAt(s1.mem, d);
    assert forall j :: At(s2.mem, d, j) == At(s1.mem, d, j);
  }

  // ---- one entry

  ghost predicate CanCopyEntry(s: PM, t: int, st: int, i: int, full: bool) {
    && t in s.tables && st in s.tables && st != t && 0 <= i < ENTRIES
    && s.tables[st].page != s.kern
    && !Present(At(s.mem, t, i))
    && (Present(At(s.mem, st, i)) ==> Fit(s, full))
  }

  lemma CopyEntryIsLink(s: PM, t: int, st: int, i: int, full: bool)
    requires Inv(s) && CanCopyEntry(s, t, st, i, full) && Present(At(s.mem, st, i))
    ensures InvX(Pop(s), {s.free[0]}, {}) && CanLink(Pop(s), t, i, s.free[0])
    ensures var l := Link(Pop(s), t, i, s.free[0], Attr(At(s.mem, st, i)));
      && CopyEntry(s, t, st, i) == l.(mem := Copied(l.mem, s.free[0], Frame(At(s.mem, st, i)), s.width))
      && l.kern == s.kern && l.dirs == s.dirs && l.tables == s.tables && |l.mem| == |s.mem| && l.width == s.width
  {
    hide Expected, CountsOk, SlotsOk, OwnersOk, SharedOk, LeavesOk;
    var p := s.free[0];
    PopKeeps(s, {});
    assert {} + {p} == {p};
    if Container(s, p) {
      ContainerIsLive(s, {}, {}, p);
    }
  }

  lemma CopyEntryKeeps(s: PM, t: int, st: int, i: int, full: bool)
    requires Inv(s) && CanCopyEntry(s, t, st, i, full)
    ensures Inv(CopyEntry(s, t, st, i))
  {
    hide InvX, Link, CanLink, Copied, At;
    if Present(At(s.mem, st, i)) {
      FitClear(s, {}, full);
      CopyEntryIsLink(s, t, st, i, full);
      LinkCopiedKeeps(s, t, i, s.free[0], Attr(At(s.mem, st, i)), Frame(At(s.mem, st, i)));
    }
  }

  lemma LinkCopiedKeeps(s: PM, t: int, i: int, p: int, attr: int, f: int)
    requires Inv(s) && Clear(s) && p == s.free[0] && InvX(Pop(s), {p}, {}) && CanLink(Pop(s), t, i, p)
    requires 0 <= attr < PGSIZE && attr % 2 == 1
    requires var l := Link(Pop(s), t, i, p, attr);
      l.kern == s.kern && l.dirs == s.dirs && l.tables == s.tables && |l.mem| == |s.mem| && l.width == s.width
    ensures var l := Link(Pop(s), t, i, p, attr); Inv(l.(mem := Copied(l.mem, p, f, s.width)))
  {
    hide InvX, Link, CanLink, Copied;
    LinkKeeps(Pop(s), {p}, t, i, p, attr);
    assert {p} - {p} == {};
    CopiedKeeps(s, Link(Pop(s), t, i, p, attr), p, f);
  }

  lemma CopiedKeeps(s: PM, l: PM, p: int, f: int)
    requires Inv(s) && Inv(l) && Clear(s) && p == s.free[0]
    requires l.kern == s.kern && l.dirs == s.dirs && l.tables == s.tables && |l.mem| == |s.mem| && l.width == s.width
    ensures Inv(l.(mem := Copied(l.mem, p, f, s.width)))
  {
    hide InvX, Copied;
    CopyKeepsContainers(s, l, p, f);
    OverwriteKeeps(l, {}, Copied(l.mem, p, f, s.width));
  }

  /** Copying over a free page and the three behind it touches no directory and no table. */
  lemma CopyKeepsContainers(s: PM, l: PM, p: int, f: int)
    requires Inv(s) && Clear(s) && p == s.free[0]
    requires l.kern == s.kern && l.dirs == s.dirs && l.tables == s.tables && |l.mem| == |s.mem| && l.width == s.width
    ensures |Copied(l.mem, p, f, s.width)| == |l.mem|
    ensures forall c, j :: Container(l, c) ==> At(Copied(l.mem, p, f, s.width), c, j) == At(l.mem, c, j)
  {
    forall c, j | Container(l, c)
      ensures At(Copied(l.mem, p, f, s.width), c, j) == At(l.mem, c, j)
    {
      ClearedLive(s, {}, {}, c);
    }
  }

  lemma CopyEntryGrows(s: PM, t: int, st: int, i: int, full: bool)
    requires Inv(s) && CanCopyEntry(s, t, st, i, full)
    ensures Grows(s, CopyEntry(s, t, st, i), t, i, i + 1, full)
    ensures CopyEntry(s, t, st, i).tables == s.tables
    ensures CopyEntry(s, t, st, i).free == if Present(At(s.mem, st, i)) then s.free[1..] else s.free
  {
    hide CountsOk, SlotsOk, OwnersOk, SharedOk, LeavesOk, At, Put, Copied;
    if Present(At(s.mem, st, i)) {
      ContainerIsLive(s, {}, {}, t);
      assert forall f :: Kept(s, f, full) ==> !(s.free[0] <= f < s.free[0] + s.width) by {
        FitKept(s, full);
      }
      CopyEntryFrame(s, t, st, i, full);
    }
  }

  /** What is left alone is not overwritten. */
  lemma FitKept(s: PM, full: bool)
    requires Inv(s) && Fit(s, full)
    ensures Managed(s.free[0])
    ensures forall f :: Kept(s, f, full) ==> !(s.free[0] <= f < s.free[0] + s.width)
  {
    hide CountsOk, Tree, Container;
  }

  lemma CopyEntryFrame(s: PM, t: int, st: int, i: int, full: bool)
    requires Shape(s) && s.free != [] && Present(At(s.mem, st, i)) && Kept(s, t, full) && 0 <= t < NPAGES
    requires forall f :: Kept(s, f, full) ==> !(s.free[0] <= f < s.free[0] + s.width)
    requires Managed(s.free[0])
    ensures var s1 := CopyEntry(s, t, st, i);
      && |s1.mem| == NPAGES && |s1.refs| == NPAGES
      && (forall f :: Kept(s, f, full) && f != t ==> PageAt(s1.mem, f) == PageAt(s.mem, f))
      && (forall j :: j != i ==> At(s1.mem, t, j) == At(s.mem, t, j))
      && (forall f :: f !in s.free ==> RefAt(s1.refs, f) == RefAt(s.refs, f))
  {
    hide Pte, Copied, Kept;
    var p, e := s.free[0], At(s.mem, st, i);
    var m := Put(s.mem, t, i, Pte(p, Attr(e)));
    CopiedFrame(m, p, Frame(e), s.width);
    assert PageAt(Copied(m, p, Frame(e), s.width), t) == PageAt(m, t);
  }

  lemma CopiedFrame(m: seq<Page>, p: int, src: int, w: int)
    ensures |Copied(m, p, src, w)| == |m|
    ensures forall f :: !(p <= f < p + w) ==> PageAt(Copied(m, p, src, w), f) == PageAt(m, f)
  {
  }

  // ---- what a copied entry looks like

  /** In s2, entry j of table t is a copy of entry j of table st as it was in s: present
      alike, same attributes, and a page of its own, free in s; in full, that page has the
      same contents. */
  ghost predicate EntryCopied(s: PM, s2: PM, t: int, st: int, j: int, full: bool) {
    var e, c := At(s.mem, st, j), At(s2.mem, t, j);
    && (Present(c) <==> Present(e))
    && (Present(e) ==>
          && Attr(c) == Attr(e) && Frame(c) in s.free && Frame(c) !in s2.free
          && RefAt(s2.refs, Frame(c)) == 1
          && (full ==> PageAt(s2.mem, Frame(c)) == PageAt(s.mem, Frame(e))))
  }

  /** The pages that entry j of table st maps are in use. */
  lemma SourceLive(s: PM, st: int, j: int)
    requires Inv(s) && st in s.tables && s.tables[st].page != s.kern && 0 <= j < ENTRIES
    requires Present(At(s.mem, st, j))
    ensures Managed(Frame(At(s.mem, st, j))) && Frame(At(s.mem, st, j)) !in s.free
    ensures !Container(s, Frame(At(s.mem, st, j)))
  {
    PointedIsLive(s, {}, {}, Slot(st, j), Frame(At(s.mem, st, j)));
  }

  lemma CopyEntryCopies(s: PM, t: int, st: int, i: int, full: bool)
    requires Inv(s) && CanCopyEntry(s, t, st, i, full)
    ensures EntryCopied(s, CopyEntry(s, t, st, i), t, st, i, full)
  {
    hide Expected, CountsOk, SlotsOk, OwnersOk, SharedOk, LeavesOk, EntryCopied;
    if Present(At(s.mem, st, i)) {
      SourceLive(s, st, i);
      ContainerIsLive(s, {}, {}, t);
      MapNewFresh(s);
      FitClear(s, {}, full);
      ClearedLive(s, {}, {}, t);
      CopyEntryContents(s, t, st, i, full);
    } else {
      NothingCopied(s, t, st, i, full);
    }
  }

  lemma NothingCopied(s: PM, t: int, st: int, i: int, full: bool)
    requires !Present(At(s.mem, st, i)) && !Present(At(s.mem, t, i))
    ensures EntryCopied(s, CopyEntry(s, t, st, i), t, st, i, full)
  {
  }

  lemma CopyEntryContents(s: PM, t: int, st: int, i: int, full: bool)
    requires Shape(s) && s.free != [] && Present(At(s.mem, st, i)) && 0 <= i < ENTRIES
    requires t !in s.free && 0 <= t < NPAGES && Managed(s.free[0]) && RefAt(s.refs, s.free[0]) == 0
    requires 0 <= Frame(At(s.mem, st, i)) < NPAGES && Frame(At(s.mem, st, i)) != t
    requires s.free[0] !in s.free[1..] && !(s.free[0] <= t < s.free[0] + s.width)
    ensures EntryCopied(s, CopyEntry(s, t, st, i), t, st, i, full)
  {
    var p, e := s.free[0], At(s.mem, st, i);
    PteFields(p, Attr(e));
    var m := Put(s.mem, t, i, Pte(p, Attr(e)));
    assert Copied(m, p, Frame(e), s.width)[p] == m[Frame(e)];
    assert Copied(m, p, Frame(e), s.width)[t] == m[t];
  }

  lemma EntryCopiedLater(s: PM, s1: PM, s2: PM, t: int, st: int, j: int, x: int, lo: int, hi: int, full: bool)
    requires EntryCopied(s, s1, t, st, j, full) && Grows(s1, s2, x, lo, hi, full)
    requires Kept(s1, t, full) && (t != x || !(lo <= j < hi)) && x !in s.free
    ensures EntryCopied(s, s2, t, st, j, full)
  {
    SuffixIn(s2.free, s1.free);
    if t != x {
      assert PageAt(s2.mem, t) == PageAt(s1.mem, t);
    }
    assert At(s2.mem, t, j) == At(s1.mem, t, j);
  }

  lemma SuffixIn(a: seq<int>, b: seq<int>)
    requires Suffix(a, b)
    ensures forall f :: f in a ==> f in b
  {
  }

  lemma EntryCopiedEarlier(s: PM, s1: PM, s2: PM, t: int, st: int, j: int, x: int, lo: int, hi: int, full: bool)
    requires Grows(s, s1, x, lo, hi, full) && EntryCopied(s1, s2, t, st, j, full)
    requires st != x && Kept(s, st, full)
    requires Present(At(s.mem, st, j)) ==> Frame(At(s.mem, st, j)) != x && Frame(At(s.mem, st, j)) !in s.free
    ensures EntryCopied(s, s2, t, st, j, full)
  {
    assert PageAt(s1.mem, st) == PageAt(s.mem, st);
    assert At(s1.mem, st, j) == At(s.mem, st, j);
    SuffixIn(s1.free, s.free);
  }

  // ---- one table

  /** Table st can be copied to the empty table t from entry i on: at every page taken on the
      way the guard holds. */
  ghost predicate CanCopyTable(s: PM, t: int, st: int, i: int, full: bool)
    decreases ENTRIES - i
  {
    && t in s.tables && st in s.tables && st != t && 0 <= i <= ENTRIES
    && s.tables[st].page != s.kern
    && (forall j :: i <= j < ENTRIES ==> !Present(At(s.mem, t, j)))
    && (i < ENTRIES ==> CanCopyEntry(s, t, st, i, full) && CanCopyTable(CopyEntry(s, t, st, i), t, st, i + 1, full))
  }

  lemma CopyTableStep(s: PM, t: int, st: int, i: int, full: bool)
    requires Inv(s) && CanCopyTable(s, t, st, i, full) && i < ENTRIES
    ensures CanCopyEntry(s, t, st, i, full)
    ensures CanCopyTable(CopyEntry(s, t, st, i), t, st, i + 1, full)
    ensures Kept(s, t, full) && Kept(s, st, full) && 0 <= t < NPAGES && 0 <= st < NPAGES
    ensures t in s.tables && st in s.tables && st != t && s.tables[st].page != s.kern && 0 <= i
    ensures PageAt(CopyEntry(s, t, st, i).mem, st) == PageAt(s.mem, st)
    ensures |CopyEntry(s, t, st, i).free| - NeedPage(PageAt(s.mem, st), i + 1) == |s.free| - NeedPage(PageAt(s.mem, st), i)
  {
    hide InvX, CopyEntry;
    TableLive(s, t);
    TableLive(s, st);
    CopyEntryGrows(s, t, st, i, full);
    assert Kept(s, st, full);
    assert PageAt(CopyEntry(s, t, st, i).mem, st) == PageAt(s.mem, st);
    assert Present(At(s.mem, st, i)) ==> s.free != [];
  }

  lemma TableLive(s: PM, t: int)
    requires Inv(s) && t in s.tables
    ensures t !in s.free && Managed(t) && t !in s.dirs && t != s.kern
  {
    ContainerIsLive(s, {}, {}, t);
  }

  lemma SourceEntry(s: PM, st: int, t: int, j: int)
    requires Inv(s) && st in s.tables && s.tables[st].page != s.kern && Container(s, t) && 0 <= j < ENTRIES
    ensures Present(At(s.mem, st, j)) ==> Frame(At(s.mem, st, j)) != t && Frame(At(s.mem, st, j)) !in s.free
  {
    hide Inv;
    if Present(At(s.mem, st, j)) {
      SourceLive(s, st, j);
    }
  }

  lemma {:induction false} CopyTableCopies(s: PM, t: int, st: int, i: int, full: bool)
    requires Inv(s) && CanCopyTable(s, t, st, i, full)
    ensures Inv(CopyTable(s, t, st, i)) && Grows(s, CopyTable(s, t, st, i), t, i, ENTRIES, full)
    ensures CopyTable(s, t, st, i).tables == s.tables
    ensures |CopyTable(s, t, st, i).free| == |s.free| - NeedPage(PageAt(s.mem, st), i)
    ensures forall j :: i <= j < ENTRIES ==> EntryCopied(s, CopyTable(s, t, st, i), t, st, j, full)
    decreases ENTRIES - i
  {
    hide InvX, CopyEntry, EntryCopied, CanCopyTable, CanCopyEntry, Grows, NeedPage, PageAt, Kept;
    if i < ENTRIES {
      var s1, s2 := CopyEntry(s, t, st, i), CopyTable(s, t, st, i);
      CopyTableStep(s, t, st, i, full);
      CopyEntryKeeps(s, t, st, i, full);
      CopyEntryGrows(s, t, st, i, full);
      CopyEntryCopies(s, t, st, i, full);
      CopyTableCopies(s1, t, st, i + 1, full);
      CopyTableJoin(s, s1, s2, t, st, i, full);
    } else {
      CopyTableDone(s, t, st, i, full);
    }
  }

  lemma CopyTableDone(s: PM, t: int, st: int, i: int, full: bool)
    requires Inv(s) && CanCopyTable(s, t, st, i, full) && i >= ENTRIES
    ensures i == ENTRIES && Grows(s, s, t, i, ENTRIES, full) && NeedPage(PageAt(s.mem, st), i) == 0
  {
    hide FreeOk, CountsOk, SlotsOk, OwnersOk, SharedOk, LeavesOk;
  }

  lemma CopyTableJoin(s: PM, s1: PM, s2: PM, t: int, st: int, i: int, full: bool)
    requires Inv(s) && t in s.tables && st in s.tables && st != t && s.tables[st].page != s.kern && 0 <= i < ENTRIES
    requires Grows(s, s1, t, i, i + 1, full) && Grows(s1, s2, t, i + 1, ENTRIES, full)
    requires Kept(s, t, full) && Kept(s, st, full) && EntryCopied(s, s1, t, st, i, full)
    requires forall j :: i + 1 <= j < ENTRIES ==> EntryCopied(s1, s2, t, st, j, full)
    ensures Grows(s, s2, t, i, ENTRIES, full)
    ensures forall j :: i <= j < ENTRIES ==> EntryCopied(s, s2, t, st, j, full)
  {
    hide InvX, Grows, EntryCopied;
    TableLive(s, t);
    GrowsTrans(s, s1, s2, t, i, i + 1, ENTRIES, full);
    KeptLater(s, s1, t, i, i + 1, full, t);
    forall j | i <= j < ENTRIES
      ensures EntryCopied(s, s2, t, st, j, full)
    {
      if j == i {
        EntryCopiedLater(s, s1, s2, t, st, i, t, i + 1, ENTRIES, full);
      } else {
        SourceEntry(s, st, t, j);
        EntryCopiedEarlier(s, s1, s2, t, st, j, t, i, i + 1, full);
      }
    }
  }

  // ---- one directory slot

  ghost predicate Copies(s: PM, dst: int, src: int, i: int) {
    Present(At(s.mem, src, i)) && !Present(At(s.mem, dst, i))
  }

  ghost predicate CanCopySlot(s: PM, dst: int, src: int, i: int, full: bool) {
    && dst in s.dirs && src in s.dirs && 0 <= i < ENTRIES
    && (Copies(s, dst, src, i) ==>
          && Fit(s, full)
          && var e := At(s.mem, src, i); CanCopyTable(AddTable(s, dst, i, Attr(e)), s.free[0], Frame(e), 0, full))
  }

  lemma AddTableGrows(s: PM, d: int, i: int, attr: int, full: bool)
    requires Inv(s) && CanAddTable(s, d, i, attr) && d in s.dirs && Fit(s, full)
    ensures Grows(s, AddTable(s, d, i, attr), d, i, i + 1, full)
    ensures AddTable(s, d, i, attr).free == s.free[1..] && s.free[0] !in s.tables
    ensures AddTable(s, d, i, attr).tables == s.tables[s.free[0] := Slot(d, i)]
    ensures At(AddTable(s, d, i, attr).mem, d, i) == Pte(s.free[0], attr)
    ensures forall j :: At(AddTable(s, d, i, attr).mem, s.free[0], j) == 0
  {
    hide CountsOk, SlotsOk, OwnersOk, SharedOk, LeavesOk, Fit, Kept;
    var p := s.free[0];
    ContainerIsLive(s, {}, {}, d);
    if p in s.tables {
      ContainerIsLive(s, {}, {}, p);
    }
    MapNewFresh(s);
    AddTableAdds(s, {}, d, i, attr);
    ZeroedFrame(s.mem, p, s.width);
    FitKept(s, full);
  }

  lemma ZeroedFrame(m: seq<Page>, p: int, w: int)
    ensures |Zeroed(m, p, w)| == |m|
    ensures forall f :: !(p <= f < p + w) ==> PageAt(Zeroed(m, p, w), f) == PageAt(m, f)
  {
  }

  /** The source slot of a copy is the source's own, and its table is in use. */
  lemma SourceTable(s: PM, dst: int, src: int, i: int)
    requires Inv(s) && dst in s.dirs && src in s.dirs && 0 <= i < ENTRIES && Copies(s, dst, src, i)
    ensures var st := Frame(At(s.mem, src, i));
      st in s.tables && s.tables[st] == Slot(src, i) && src != s.kern && st !in s.free && st != dst && 0 <= st < NPAGES
    ensures !SharedSlot(s, i)
  {
    hide FreeOk, CountsOk;
    assert SharedSlot(s, i) ==> At(s.mem, dst, i) == At(s.mem, s.kern, i);
    SlotTarget(s, src, i);
    assert IsOwn(s, src, i);
    TableLive(s, Frame(At(s.mem, src, i)));
  }

  /** The state after the new table is in place meets the guard of filling it. */
  lemma CopySlotReady(s: PM, dst: int, src: int, i: int, full: bool)
    requires Inv(s) && CanCopySlot(s, dst, src, i, full) && Copies(s, dst, src, i)
    ensures CanAddTable(s, dst, i, Attr(At(s.mem, src, i))) && Fit(s, full) && s.free != []
    ensures Managed(s.free[0])
    ensures CanCopyTable(AddTable(s, dst, i, Attr(At(s.mem, src, i))), s.free[0], Frame(At(s.mem, src, i)), 0, full)
    ensures PageAt(AddTable(s, dst, i, Attr(At(s.mem, src, i))).mem, Frame(At(s.mem, src, i)))
         == PageAt(s.mem, Frame(At(s.mem, src, i)))
  {
    hide InvX, AddTable, CanCopyTable;
    var e := At(s.mem, src, i);
    SourceTable(s, dst, src, i);
    MapNewFresh(s);
    FitClear(s, {}, full);
    AddTableGrows(s, dst, i, Attr(e), full);
    assert Kept(s, Frame(e), full);
  }

  /** In s2, slot i of directory dst is a copy of slot i of src as they were in s, unless
      dst had filled it already. */
  ghost predicate SlotCopied(s: PM, s2: PM, dst: int, src: int, i: int, full: bool) {
    if Present(At(s.mem, dst, i)) then At(s2.mem, dst, i) == At(s.mem, dst, i) else
    && (Present(At(s2.mem, dst, i)) <==> Present(At(s.mem, src, i)))
    && (Present(At(s.mem, src, i)) ==> TableCopied(s, s2, dst, src, i, full))
  }

  ghost predicate TableCopied(s: PM, s2: PM, dst: int, src: int, i: int, full: bool) {
    var e, c := At(s.mem, src, i), At(s2.mem, dst, i);
    && Attr(c) == Attr(e) && Frame(c) in s.free && Frame(c) !in s2.free && Frame(c) in s2.tables
    && Frame(e) in s.tables && s.tables[Frame(e)].page != s.kern
    && (forall j :: 0 <= j < ENTRIES ==> EntryCopied(s, s2, Frame(c), Frame(e), j, full))
  }

  lemma CopySlotCopies(s: PM, dst: int, src: int, i: int, full: bool)
    requires Inv(s) && CanCopySlot(s, dst, src, i, full)
    ensures Inv(CopySlot(s, dst, src, i)) && Grows(s, CopySlot(s, dst, src, i), dst, i, i + 1, full)
    ensures |CopySlot(s, dst, src, i).free| == |s.free| - NeedSlot(s, dst, src, i)
    ensures SlotCopied(s, CopySlot(s, dst, src, i), dst, src, i, full)
  {
    hide InvX, AddTable, Grows, TableCopied, CanAddTable, CanCopyTable, PageAt, Fit;
    if Copies(s, dst, src, i) {
      var e := At(s.mem, src, i);
      var s1 := AddTable(s, dst, i, Attr(e));
      CopySlotReady(s, dst, src, i, full);
      AddTableKeeps(s, {}, dst, i, Attr(e));
      AddTableGrows(s, dst, i, Attr(e), full);
      PteFields(s.free[0], Attr(e));
      CopyTableCopies(s1, s.free[0], Frame(e), 0, full);
      CopySlotJoin(s, s1, CopySlot(s, dst, src, i), dst, src, i, full);
    } else {
      GrowsNothing(s, dst, i, full);
    }
  }

  lemma GrowsNothing(s: PM, x: int, i: int, full: bool)
    requires Inv(s)
    ensures Grows(s, s, x, i, i + 1, full)
  {
    hide FreeOk, CountsOk, Tree;
  }

  lemma CopySlotJoin(s: PM, s1: PM, s2: PM, dst: int, src: int, i: int, full: bool)
    requires Inv(s) && dst in s.dirs && src in s.dirs && 0 <= i < ENTRIES && Copies(s, dst, src, i) && s.free != []
    requires Grows(s, s1, dst, i, i + 1, full) && Grows(s1, s2, s.free[0], 0, ENTRIES, full) && s2.tables == s1.tables
    requires s1.free == s.free[1..] && Managed(s.free[0]) && s1.tables == s.tables[s.free[0] := Slot(dst, i)]
    requires At(s1.mem, dst, i) == Pte(s.free[0], Attr(At(s.mem, src, i)))
    requires forall j :: 0 <= j < ENTRIES ==> EntryCopied(s1, s2, s.free[0], Frame(At(s.mem, src, i)), j, full)
    ensures Grows(s, s2, dst, i, i + 1, full) && SlotCopied(s, s2, dst, src, i, full)
  {
    hide InvX, EntryCopied, Grows, At;
    var p, st := s.free[0], Frame(At(s.mem, src, i));
    PteFields(p, Attr(At(s.mem, src, i)));
    SourceTable(s, dst, src, i);
    DirLive(s, dst);
    MapNewFresh(s);
    GrowsInside(s, s1, s2, dst, i, p, full);
    FilledApart(s, s1, s2, dst, i, p, full);
    forall j | 0 <= j < ENTRIES
      ensures EntryCopied(s, s2, p, st, j, full)
    {
      SourceEntry(s, st, dst, j);
      EntryCopiedEarlier(s, s1, s2, p, st, j, dst, i, i + 1, full);
    }
  }

  /** Filling the new table leaves the directory alone and gives no page back. */
  lemma FilledApart(s: PM, s1: PM, s2: PM, dst: int, i: int, p: int, full: bool)
    requires Grows(s, s1, dst, i, i + 1, full) && Grows(s1, s2, p, 0, ENTRIES, full)
    requires dst in s.dirs && dst !in s.free && s.free != [] && s1.free == s.free[1..] && p == s.free[0] && p !in s.free[1..]
    ensures At(s2.mem, dst, i) == At(s1.mem, dst, i) && p !in s2.free
  {
    SuffixIn(s2.free, s1.free);
    assert Kept(s1, dst, full);
    assert dst != p;
    assert PageAt(s2.mem, dst) == PageAt(s1.mem, dst);
  }

  lemma DirLive(s: PM, d: int)
    requires Inv(s) && d in s.dirs
    ensures d !in s.free && Managed(d) && d !in s.tables && d != s.kern
  {
    ContainerIsLive(s, {}, {}, d);
  }

  // ---- the whole directory

  /** src can be copied to dst from slot i on: at every page taken on the way the guard holds. */
  ghost predicate CanCopyDir(s: PM, dst: int, src: int, i: int, full: bool)
    decreases ENTRIES - i
  {
    && dst in s.dirs && src in s.dirs && 0 <= i <= ENTRIES
    && (i < ENTRIES ==> CanCopySlot(s, dst, src, i, full) && CanCopyDir(CopySlot(s, dst, src, i), dst, src, i + 1, full))
  }

  lemma NeedSlotSame(s: PM, s1: PM, dst: int, src: int, i: int, j: int, full: bool)
    requires Inv(s) && dst in s.dirs && src in s.dirs && Grows(s, s1, dst, i, i + 1, full) && i < j < ENTRIES && 0 <= i
    ensures NeedSlot(s1, dst, src, j) == NeedSlot(s, dst, src, j)
    ensures At(s1.mem, dst, j) == At(s.mem, dst, j) && At(s1.mem, src, j) == At(s.mem, src, j)
  {
    hide InvX;
    DirLive(s, dst);
    DirLive(s, src);
    if src != dst {
      assert Kept(s, src, full);
      assert PageAt(s1.mem, src) == PageAt(s.mem, src);
    }
    if Copies(s, dst, src, j) {
      SourceTable(s, dst, src, j);
      assert Kept(s, Frame(At(s.mem, src, j)), full);
    }
  }

  lemma {:induction false} NeedDirSame(s: PM, s1: PM, dst: int, src: int, i: int, j: int, full: bool)
    requires Inv(s) && dst in s.dirs && src in s.dirs && Grows(s, s1, dst, i, i + 1, full) && 0 <= i < j <= ENTRIES
    ensures NeedDir(s1, dst, src, j) == NeedDir(s, dst, src, j)
    decreases ENTRIES - j
  {
    hide InvX, Grows, NeedSlot;
    if j < ENTRIES {
      NeedSlotSame(s, s1, dst, src, i, j, full);
      NeedDirSame(s, s1, dst, src, i, j + 1, full);
    }
  }

  lemma CopyDirStep(s: PM, dst: int, src: int, i: int, full: bool)
    requires Inv(s) && CanCopyDir(s, dst, src, i, full) && i < ENTRIES
    ensures CanCopySlot(s, dst, src, i, full)
    ensures CanCopyDir(CopySlot(s, dst, src, i), dst, src, i + 1, full)
    ensures NeedDir(CopySlot(s, dst, src, i), dst, src, i + 1) == NeedDir(s, dst, src, i) - NeedSlot(s, dst, src, i)
  {
    hide InvX, CopySlot, NeedSlot, SlotCopied, CanCopySlot;
    CopySlotCopies(s, dst, src, i, full);
    NeedDirSame(s, CopySlot(s, dst, src, i), dst, src, i, i + 1, full);
  }

  lemma SlotCopiedLater(s: PM, s1: PM, s2: PM, dst: int, src: int, i: int, full: bool)
    requires SlotCopied(s, s1, dst, src, i, full) && Grows(s1, s2, dst, i + 1, ENTRIES, full) && 0 <= i < ENTRIES
    requires dst !in s.free
    ensures SlotCopied(s, s2, dst, src, i, full)
  {
    hide EntryCopied;
    assert At(s2.mem, dst, i) == At(s1.mem, dst, i);
    if !Present(At(s.mem, dst, i)) && Present(At(s.mem, src, i)) {
      var t, st := Frame(At(s1.mem, dst, i)), Frame(At(s.mem, src, i));
      SuffixIn(s2.free, s1.free);
      forall j | 0 <= j < ENTRIES
        ensures EntryCopied(s, s2, t, st, j, full)
      {
        EntryCopiedLater(s, s1, s2, t, st, j, dst, i + 1, ENTRIES, full);
      }
    }
  }

  lemma SlotCopiedEarlier(s: PM, s1: PM, s2: PM, dst: int, src: int, i: int, j: int, full: bool)
    requires Inv(s) && dst in s.dirs && src in s.dirs && 0 <= i < j < ENTRIES
    requires Grows(s, s1, dst, i, i + 1, full) && SlotCopied(s1, s2, dst, src, j, full)
    ensures SlotCopied(s, s2, dst, src, j, full)
  {
    hide InvX, EntryCopied, NeedSlot;
    NeedSlotSame(s, s1, dst, src, i, j, full);
    if Copies(s, dst, src, j) {
      SourceTable(s, dst, src, j);
      SuffixIn(s1.free, s.free);
      var t, st := Frame(At(s2.mem, dst, j)), Frame(At(s.mem, src, j));
      forall k | 0 <= k < ENTRIES
        ensures EntryCopied(s, s2, t, st, k, full)
      {
        SourceEntry(s, st, dst, k);
        EntryCopiedEarlier(s, s1, s2, t, st, k, dst, i, i + 1, full);
      }
    }
  }

  /** copy_pgdir keeps the invariant, takes exactly the pages counted by NeedDir, and makes
      each slot of dst a copy; in full it changes no page in use except dst. */
  lemma {:induction false} CopyDirCopies(s: PM, dst: int, src: int, i: int, full: bool)
    requires Inv(s) && CanCopyDir(s, dst, src, i, full)
    ensures Inv(CopyDir(s, dst, src, i)) && Grows(s, CopyDir(s, dst, src, i), dst, i, ENTRIES, full)
    ensures |CopyDir(s, dst, src, i).free| == |s.free| - NeedDir(s, dst, src, i)
    ensures forall j :: i <= j < ENTRIES ==> SlotCopied(s, CopyDir(s, dst, src, i), dst, src, j, full)
    decreases ENTRIES - i
  {
    hide InvX, CopySlot, SlotCopied, Grows, CanCopySlot, NeedSlot;
    if i < ENTRIES {
      var s1, s2 := CopySlot(s, dst, src, i), CopyDir(s, dst, src, i);
      CopyDirStep(s, dst, src, i, full);
      CopySlotCopies(s, dst, src, i, full);
      CopyDirCopies(s1, dst, src, i + 1, full);
      CopyDirJoin(s, s1, s2, dst, src, i, full);
    } else {
      CopyDirDone(s, dst, full);
    }
  }

  lemma CopyDirDone(s: PM, dst: int, full: bool)
    requires Inv(s)
    ensures Grows(s, s, dst, ENTRIES, ENTRIES, full)
  {
    hide FreeOk, CountsOk, Tree;
  }

  lemma CopyDirJoin(s: PM, s1: PM, s2: PM, dst: int, src: int, i: int, full: bool)
    requires Inv(s) && dst in s.dirs && src in s.dirs && 0 <= i < ENTRIES
    requires Grows(s, s1, dst, i, i + 1, full) && Grows(s1, s2, dst, i + 1, ENTRIES, full)
    requires SlotCopied(s, s1, dst, src, i, full)
    requires forall j :: i + 1 <= j < ENTRIES ==> SlotCopied(s1, s2, dst, src, j, full)
    ensures Grows(s, s2, dst, i, ENTRIES, full)
    ensures forall j :: i <= j < ENTRIES ==> SlotCopied(s, s2, dst, src, j, full)
  {
    hide InvX, Grows, SlotCopied;
    DirLive(s, dst);
    GrowsTrans(s, s1, s2, dst, i, i + 1, ENTRIES, full);
    forall j | i <= j < ENTRIES
      ensures SlotCopied(s, s2, dst, src, j, full)
    {
      if j == i {
        SlotCopiedLater(s, s1, s2, dst, src, i, full);
      } else {
        SlotCopiedEarlier(s, s1, s2, dst, src, i, j, full);
      }
    }
  }

  // ---- the copy, seen as a translation

  /** What copy_pgdir promises for page number v, which dst did not reach before: dst now
      translates v exactly when src does, with the same attributes, in a page that was free
      before and is mapped only here; in full, with the same contents. */
  lemma CopyTranslate(s: PM, dst: int, src: int, v: int, full: bool)
    requires Inv(s) && CanCopyDir(s, dst, src, 0, full) && 0 <= v < VPNS && !Present(At(s.mem, dst, v / ENTRIES))
    ensures var s2 := CopyDir(s, dst, src, 0);
      && (Translate(s2, dst, v).Mapped? <==> Translate(s, src, v).Mapped?)
      && (Translate(s, src, v).Mapped? ==>
            && Translate(s2, dst, v).attr == Translate(s, src, v).attr
            && (full ==> PageAt(s2.mem, Translate(s2, dst, v).frame) == PageAt(s.mem, Translate(s, src, v).frame))
            && Translate(s2, dst, v).frame in s.free && Translate(s2, dst, v).frame !in s2.free
            && Exclusive(s2, dst, v))
  {
    hide InvX, CopyDir, Grows, CanCopyDir;
    CopyDirCopies(s, dst, src, 0, full);
    var s2 := CopyDir(s, dst, src, 0);
    assert SlotCopied(s, s2, dst, src, v / ENTRIES, full);
    if Copies(s, dst, src, v / ENTRIES) {
      FreeManaged(s);
      assert EntryCopied(s, s2, TableOf(s2, dst, v), TableOf(s, src, v), v % ENTRIES, full);
    }
  }

  lemma FreeManaged(s: PM)
    requires Inv(s)
    ensures forall f :: f in s.free ==> Managed(f)
  {
  }

  /** Every other translation is unchanged: page numbers dst reached already, and every page
      number of every other directory, the source included; in full, so are the contents. */
  lemma CopyTranslateOther(s: PM, dst: int, src: int, d: int, v: int, full: bool)
    requires Inv(s) && CanCopyDir(s, dst, src, 0, full) && 0 <= v < VPNS && IsDir(s, d)
    requires d != dst || Present(At(s.mem, dst, v / ENTRIES))
    ensures Translate(CopyDir(s, dst, src, 0), d, v) == Translate(s, d, v)
    ensures full && Translate(s, d, v).Mapped? && Translate(s, d, v).frame != dst && Translate(s, d, v).frame !in s.free ==>
        PageAt(CopyDir(s, dst, src, 0).mem, Translate(s, d, v).frame) == PageAt(s.mem, Translate(s, d, v).frame)
  {
    hide InvX, CopyDir, CanCopyDir, Grows, SlotCopied;
    var s2 := CopyDir(s, dst, src, 0);
    CopyDirGuard(s, dst, src, full);
    CopyDirCopies(s, dst, src, 0, full);
    DirLive(s, dst);
    assert At(s2.mem, d, v / ENTRIES) == At(s.mem, d, v / ENTRIES) by {
      assert SlotCopied(s, s2, dst, src, v / ENTRIES, full);
      OtherSlot(s, s2, dst, src, d, v / ENTRIES, full);
    }
    if Present(At(s.mem, d, v / ENTRIES)) {
      OtherTable(s, s2, dst, d, v / ENTRIES, full);
    }
    KeptContents(s, s2, dst, full);
  }

  lemma OtherSlot(s: PM, s2: PM, dst: int, src: int, d: int, i: int, full: bool)
    requires Inv(s) && Grows(s, s2, dst, 0, ENTRIES, full) && SlotCopied(s, s2, dst, src, i, full) && IsDir(s, d)
    requires d != dst || Present(At(s.mem, dst, i))
    ensures At(s2.mem, d, i) == At(s.mem, d, i)
  {
    hide InvX, TableCopied;
    if d != dst {
      ContainerIsLive(s, {}, {}, d);
      assert Kept(s, d, full);
    }
  }

  lemma OtherTable(s: PM, s2: PM, dst: int, d: int, i: int, full: bool)
    requires Inv(s) && Grows(s, s2, dst, 0, ENTRIES, full) && IsDir(s, d) && dst in s.dirs
    requires 0 <= i < ENTRIES && Present(At(s.mem, d, i))
    ensures PageAt(s2.mem, Frame(At(s.mem, d, i))) == PageAt(s.mem, Frame(At(s.mem, d, i)))
  {
    hide FreeOk, CountsOk, SlotsOk, OwnersOk, SharedOk, LeavesOk;
    var t := Frame(At(s.mem, d, i));
    SlotTarget(s, d, i);
    DirLive(s, dst);
    FreeManaged(s);
    if t in s.tables {
      TableLive(s, t);
    }
    assert Kept(s, t, full);
  }

  lemma KeptContents(s: PM, s2: PM, dst: int, full: bool)
    requires Grows(s, s2, dst, 0, ENTRIES, full)
    ensures full ==> forall f :: f !in s.free && f != dst ==> PageAt(s2.mem, f) == PageAt(s.mem, f)
  {
    assert full ==> forall f :: f !in s.free ==> Kept(s, f, full);
  }

  lemma CopyDirGuard(s: PM, dst: int, src: int, full: bool)
    requires CanCopyDir(s, dst, src, 0, full)
    ensures dst in s.dirs && src in s.dirs
  {
  }

  // ---- if one page is one page, enough free pages are all the guard asks for

  lemma {:induction false} EnoughForTable(s: PM, t: int, st: int, i: int)
    requires Inv(s) && s.width == 1 && t in s.tables && st in s.tables && st != t && 0 <= i <= ENTRIES
    requires s.tables[st].page != s.kern && forall j :: i <= j < ENTRIES ==> !Present(At(s.mem, t, j))
    requires NeedPage(PageAt(s.mem, st), i) <= |s.free|
    ensures CanCopyTable(s, t, st, i, true)
    decreases ENTRIES - i
  {
    hide InvX, CopyEntry, CanCopyEntry;
    if i < ENTRIES {
      EnoughForEntry(s, t, st, i);
      TableLive(s, st);
      TableLive(s, t);
      CopyEntryKeeps(s, t, st, i, true);
      CopyEntryGrows(s, t, st, i, true);
      var s1 := CopyEntry(s, t, st, i);
      assert Kept(s, st, true);
      assert PageAt(s1.mem, st) == PageAt(s.mem, st);
      forall j | i + 1 <= j < ENTRIES
        ensures !Present(At(s1.mem, t, j))
      {
        assert At(s1.mem, t, j) == At(s.mem, t, j);
      }
      EnoughForTable(s1, t, st, i + 1);
    }
  }

  lemma EnoughForEntry(s: PM, t: int, st: int, i: int)
    requires Inv(s) && s.width == 1 && t in s.tables && st in s.tables && st != t && 0 <= i < ENTRIES
    requires s.tables[st].page != s.kern && !Present(At(s.mem, t, i))
    requires Present(At(s.mem, st, i)) ==> s.free != []
    ensures CanCopyEntry(s, t, st, i, true)
  {
    hide CountsOk, Tree;
    if Present(At(s.mem, st, i)) {
      assert Managed(s.free[0]);
      OnePageFits(s);
    }
  }

  lemma EnoughForSlot(s: PM, dst: int, src: int, i: int)
    requires Inv(s) && s.width == 1 && dst in s.dirs && src in s.dirs && 0 <= i < ENTRIES
    requires NeedSlot(s, dst, src, i) <= |s.free|
    ensures CanCopySlot(s, dst, src, i, true)
  {
    hide InvX, AddTable, CanCopyTable;
    if Copies(s, dst, src, i) {
      var e := At(s.mem, src, i);
      SourceTable(s, dst, src, i);
      MapNewFresh(s);
      assert Shape(s) by { InvShape(s); }
      OnePageFits(s);
      var s1 := AddTable(s, dst, i, Attr(e));
      AddTableKeeps(s, {}, dst, i, Attr(e));
      AddTableGrows(s, dst, i, Attr(e), true);
      assert Kept(s, Frame(e), true);
      assert PageAt(s1.mem, Frame(e)) == PageAt(s.mem, Frame(e));
      EnoughForTable(s1, s.free[0], Frame(e), 0);
    }
  }

  lemma InvShape(s: PM)
    requires Inv(s)
    ensures Shape(s)
  {
  }

  lemma {:induction false} EnoughForDir(s: PM, dst: int, src: int, i: int)
    requires Inv(s) && s.width == 1 && dst in s.dirs && src in s.dirs && 0 <= i <= ENTRIES
    requires NeedDir(s, dst, src, i) <= |s.free|
    ensures CanCopyDir(s, dst, src, i, true)
    decreases ENTRIES - i
  {
    hide InvX, CopySlot, CanCopySlot, NeedSlot, SlotCopied;
    if i < ENTRIES {
      EnoughForSlot(s, dst, src, i);
      CopySlotCopies(s, dst, src, i, true);
      NeedDirSame(s, CopySlot(s, dst, src, i), dst, src, i, i + 1, true);
      EnoughForDir(CopySlot(s, dst, src, i), dst, src, i + 1);
    }
  }

  /** copy_pgdir with helpers that copy and clear one page: all it needs is as many free pages
      as it takes, in whatever order, and everything promised above holds in full. */
  lemma OnePageCopy(s: PM, dst: int, src: int, v: int)
    requires Inv(s) && s.width == 1 && dst in s.dirs && src in s.dirs && NeedDir(s, dst, src, 0) <= |s.free|
    requires 0 <= v < VPNS && !Present(At(s.mem, dst, v / ENTRIES))
    ensures var s2 := CopyDir(s, dst, src, 0);
      && Inv(s2) && |s2.free| == |s.free| - NeedDir(s, dst, src, 0)
      && (Translate(s2, dst, v).Mapped? <==> Translate(s, src, v).Mapped?)
      && (Translate(s, src, v).Mapped? ==>
            && Translate(s2, dst, v).attr == Translate(s, src, v).attr
            && PageAt(s2.mem, Translate(s2, dst, v).frame) == PageAt(s.mem, Translate(s, src, v).frame)
            && Exclusive(s2, dst, v))
      && (forall f :: f !in s.free && f != dst ==> PageAt(s2.mem, f) == PageAt(s.mem, f))
  {
    hide InvX, CopyDir, CanCopyDir, NeedDir, Translate, Exclusive, SlotCopied;
    EnoughForDir(s, dst, src, 0);
    CopyDirCopies(s, dst, src, 0, true);
    CopyTranslate(s, dst, src, v, true);
    assert forall f :: f !in s.free ==> Kept(s, f, true);
  }
}
