/** What it takes for the invariant to survive when a range of pages is overwritten: an exact
    condition on the old and the new words of the directories and tables in the range. */
module PageOverwrite {
  import opened Mmu
  import opened PageSpec
  import opened PageInvariant
  import opened PageSteps
  import opened PageMapping

  /** m differs from the memory of s in the pages lo to hi only. */
  ghost predicate Only(s: PM, m: seq<Page>, lo: int, hi: int) {
    |m| == |s.mem| && forall f :: !(lo <= f < hi) ==> PageAt(m, f) == PageAt(s.mem, f)
  }

  predicate SameTarget(w: Word, w1: Word) {
    (Present(w) <==> Present(w1)) && (Present(w) ==> Frame(w) == Frame(w1))
  }

  /** The directories in the range lead to the same tables as before. */
  ghost predicate DirsSpared(s: PM, m: seq<Page>, lo: int, hi: int) {
    forall c, i :: c in s.dirs && lo <= c < hi && 0 <= i < ENTRIES ==> SlotSpared(s, m, c, i)
  }

  ghost predicate SlotSpared(s: PM, m: seq<Page>, c: int, i: int) {
    if SharedSlot(s, i) then At(m, c, i) == At(s.mem, c, i) else SameTarget(At(s.mem, c, i), At(m, c, i))
  }

  /** The tables in the range map only pages that such tables may map. */
  ghost predicate LeavesSpared(s: PM, m: seq<Page>, lo: int, hi: int) {
    forall t, i :: t in s.tables && lo <= t < hi && 0 <= i < ENTRIES && Present(At(m, t, i)) ==> LeafOk(s, t, Frame(At(m, t, i)))
  }

  /** The entries of tables in the range that map page f. */
  ghost function Entries(s: PM, m: seq<Page>, lo: int, hi: int, f: int): set<Slot> {
    set sl | sl in AllSlots() && sl.page in s.tables && lo <= sl.page < hi
             && Present(At(m, sl.page, sl.idx)) && Frame(At(m, sl.page, sl.idx)) == f
  }

  /** They map every managed page as many times as before. */
  ghost predicate CountsSpared(s: PM, m: seq<Page>, lo: int, hi: int) {
    forall f :: Managed(f) ==> |Entries(s, m, lo, hi, f)| == |Entries(s, s.mem, lo, hi, f)|
  }

  ghost predicate Survives(s: PM, m: seq<Page>, lo: int, hi: int) {
    DirsSpared(s, m, lo, hi) && LeavesSpared(s, m, lo, hi) && CountsSpared(s, m, lo, hi)
  }

  /** The invariant survives if and only if the directories in the range keep their targets and
      the tables in the range keep the number of references to every page. */
  lemma OverwriteIff(s: PM, held: set<int>, m: seq<Page>, lo: int, hi: int)
    requires InvX(s, held, {}) && Only(s, m, lo, hi) && FIRST_MANAGED <= lo
    ensures InvX(s.(mem := m), held, {}) <==> Survives(s, m, lo, hi)
  {
    hide InvX, Only, DirsSpared, LeavesSpared, CountsSpared;
    if Survives(s, m, lo, hi) {
      SurvivesKeeps(s, held, m, lo, hi);
    }
    if InvX(s.(mem := m), held, {}) {
      InvSpares(s, held, m, lo, hi);
    }
  }

  lemma OutsideAt(s: PM, m: seq<Page>, lo: int, hi: int, c: int, i: int)
    requires Shape(s) && Only(s, m, lo, hi) && FIRST_MANAGED <= lo && (c == s.kern || !(lo <= c < hi))
    ensures At(m, c, i) == At(s.mem, c, i)
  {
    assert PageAt(m, c) == PageAt(s.mem, c);
  }

  // ---- references inside and outside the range

  lemma EntriesAreRefs(s: PM, lo: int, hi: int, f: int)
    ensures Entries(s, s.mem, lo, hi, f) <= Refs(s, f)
  {
  }

  /** As long as the directories are spared, references from elsewhere stay the same. */
  lemma RestSame(s: PM, m: seq<Page>, lo: int, hi: int, f: int)
    requires Shape(s) && DirsOk(s) && SharedOk(s) && Only(s, m, lo, hi) && FIRST_MANAGED <= lo && DirsSpared(s, m, lo, hi)
    ensures Refs(s.(mem := m), f) - Entries(s, m, lo, hi, f) == Refs(s, f) - Entries(s, s.mem, lo, hi, f)
  {
    hide DirsOk, SharedOk, Shape;
    var s1 := s.(mem := m);
    forall sl | sl in AllSlots()
      ensures sl in Refs(s1, f) - Entries(s, m, lo, hi, f) <==> sl in Refs(s, f) - Entries(s, s.mem, lo, hi, f)
    {
      RestSlot(s, m, lo, hi, f, sl);
    }
  }

  lemma RestSlot(s: PM, m: seq<Page>, lo: int, hi: int, f: int, sl: Slot)
    requires Shape(s) && DirsOk(s) && SharedOk(s) && Only(s, m, lo, hi) && FIRST_MANAGED <= lo && DirsSpared(s, m, lo, hi)
    requires sl in AllSlots()
    ensures sl in Refs(s.(mem := m), f) - Entries(s, m, lo, hi, f) <==> sl in Refs(s, f) - Entries(s, s.mem, lo, hi, f)
  {
    OutsideAt(s, m, lo, hi, s.kern, sl.idx);
    if !(lo <= sl.page < hi) {
      OutsideAt(s, m, lo, hi, sl.page, sl.idx);
    } else if sl.page in s.dirs {
      assert SlotSpared(s, m, sl.page, sl.idx);
    }
  }

  lemma SplitCard(a: set<Slot>, b: set<Slot>)
    requires b <= a
    ensures |a| == |a - b| + |b|
  {
    assert a == (a - b) + b;
  }

  lemma RefsCard(s: PM, m: seq<Page>, lo: int, hi: int, f: int)
    requires Shape(s) && DirsOk(s) && SharedOk(s) && Only(s, m, lo, hi) && FIRST_MANAGED <= lo && DirsSpared(s, m, lo, hi)
    ensures |Refs(s.(mem := m), f)| - |Entries(s, m, lo, hi, f)| == |Refs(s, f)| - |Entries(s, s.mem, lo, hi, f)|
  {
    hide Refs, Entries, Shape, DirsOk, SharedOk, Only, DirsSpared;
    var s1 := s.(mem := m);
    RestSame(s, m, lo, hi, f);
    EntriesAreRefs(s, lo, hi, f);
    EntriesAreRefs(s1, lo, hi, f);
    assert Entries(s1, m, lo, hi, f) == Entries(s, m, lo, hi, f) by { SameEntries(s, s1, m, lo, hi, f); }
    SplitCard(Refs(s, f), Entries(s, s.mem, lo, hi, f));
    SplitCard(Refs(s1, f), Entries(s, m, lo, hi, f));
  }

  lemma SameEntries(s: PM, s1: PM, m: seq<Page>, lo: int, hi: int, f: int)
    requires s1.tables == s.tables
    ensures Entries(s1, m, lo, hi, f) == Entries(s, m, lo, hi, f)
  {
  }

  // ---- if the range is spared, the invariant survives

  lemma SurvivesKeeps(s: PM, held: set<int>, m: seq<Page>, lo: int, hi: int)
    requires InvX(s, held, {}) && Only(s, m, lo, hi) && FIRST_MANAGED <= lo && Survives(s, m, lo, hi)
    ensures InvX(s.(mem := m), held, {})
  {
    hide Only, DirsSpared, LeavesSpared, CountsSpared, CountsOk, SlotsOk, OwnersOk, SharedOk, LeavesOk, FreeOk, DirsOk;
    var s1 := s.(mem := m);
    SparedCounts(s, held, m, lo, hi);
    SparedSlots(s, m, lo, hi);
    SparedOwners(s, m, lo, hi);
    SparedShared(s, m, lo, hi);
    SparedLeaves(s, m, lo, hi);
    SparedRest(s, held, m, lo, hi);
  }

  lemma SparedRest(s: PM, held: set<int>, m: seq<Page>, lo: int, hi: int)
    requires InvX(s, held, {}) && Only(s, m, lo, hi)
    ensures FreeOk(s.(mem := m), held) && DirsOk(s.(mem := m)) && Shape(s.(mem := m))
  {
  }

  lemma SparedCounts(s: PM, held: set<int>, m: seq<Page>, lo: int, hi: int)
    requires InvX(s, held, {}) && Only(s, m, lo, hi) && FIRST_MANAGED <= lo && DirsSpared(s, m, lo, hi) && CountsSpared(s, m, lo, hi)
    ensures CountsOk(s.(mem := m), {})
  {
    hide Only, DirsSpared, Refs, Entries, SlotsOk, OwnersOk, SharedOk, LeavesOk, FreeOk, DirsOk, Shape;
    var s1 := s.(mem := m);
    forall f | Managed(f)
      ensures RefAt(s1.refs, f) == Expected(s1, {}, f)
    {
      RefsCard(s, m, lo, hi, f);
      assert Refs(s, f) - {} == Refs(s, f) && Refs(s1, f) - {} == Refs(s1, f);
      assert RefAt(s.refs, f) == Expected(s, {}, f);
    }
  }

  lemma SparedSlots(s: PM, m: seq<Page>, lo: int, hi: int)
    requires Shape(s) && Tree(s) && Only(s, m, lo, hi) && FIRST_MANAGED <= lo && DirsSpared(s, m, lo, hi)
    ensures SlotsOk(s.(mem := m))
  {
    hide OwnersOk, LeavesOk, Only;
    var s1 := s.(mem := m);
    forall c, i | 0 <= i < ENTRIES && IsOwn(s1, c, i) && Present(At(m, c, i))
      ensures OwnedTable(s1, c, i) || (c == s1.kern && Frame(At(m, c, i)) < FIRST_MANAGED)
    {
      OutsideAt(s, m, lo, hi, s.kern, i);
      assert IsOwn(s, c, i);
      if c == s.kern || !(lo <= c < hi) {
        OutsideAt(s, m, lo, hi, c, i);
      } else {
        assert SlotSpared(s, m, c, i);
      }
    }
  }

  lemma SparedOwners(s: PM, m: seq<Page>, lo: int, hi: int)
    requires Shape(s) && Tree(s) && Only(s, m, lo, hi) && FIRST_MANAGED <= lo && DirsSpared(s, m, lo, hi)
    ensures OwnersOk(s.(mem := m))
  {
    hide SlotsOk, LeavesOk, Only;
    var s1 := s.(mem := m);
    forall t | t in s1.tables
      ensures 0 <= s1.tables[t].idx < ENTRIES && IsOwn(s1, s1.tables[t].page, s1.tables[t].idx) && PointsTo(s1, s1.tables[t], t)
    {
      var sl := s.tables[t];
      assert IsOwn(s, sl.page, sl.idx) && PointsTo(s, sl, t);
      OutsideAt(s, m, lo, hi, s.kern, sl.idx);
      if sl.page == s.kern || !(lo <= sl.page < hi) {
        OutsideAt(s, m, lo, hi, sl.page, sl.idx);
      } else {
        assert SlotSpared(s, m, sl.page, sl.idx);
      }
    }
  }

  lemma SparedShared(s: PM, m: seq<Page>, lo: int, hi: int)
    requires Shape(s) && SharedOk(s) && Only(s, m, lo, hi) && FIRST_MANAGED <= lo && DirsSpared(s, m, lo, hi)
    ensures SharedOk(s.(mem := m))
  {
    hide Only;
    forall d, i | d in s.dirs && 0 <= i < ENTRIES && Present(At(m, s.kern, i))
      ensures At(m, d, i) == At(m, s.kern, i)
    {
      OutsideAt(s, m, lo, hi, s.kern, i);
      if lo <= d < hi {
        assert SlotSpared(s, m, d, i);
      } else {
        OutsideAt(s, m, lo, hi, d, i);
      }
    }
  }

  lemma SparedLeaves(s: PM, m: seq<Page>, lo: int, hi: int)
    requires Shape(s) && LeavesOk(s) && Only(s, m, lo, hi) && FIRST_MANAGED <= lo && LeavesSpared(s, m, lo, hi)
    ensures LeavesOk(s.(mem := m))
  {
    hide Only;
    var s1 := s.(mem := m);
    forall t, i | t in s1.tables && 0 <= i < ENTRIES && Present(At(m, t, i))
      ensures LeafOk(s1, t, Frame(At(m, t, i)))
    {
      if !(lo <= t < hi) {
        OutsideAt(s, m, lo, hi, t, i);
      }
    }
  }

  // ---- if the invariant survives, the range was spared

  lemma InvSpares(s: PM, held: set<int>, m: seq<Page>, lo: int, hi: int)
    requires InvX(s, held, {}) && InvX(s.(mem := m), held, {}) && Only(s, m, lo, hi) && FIRST_MANAGED <= lo
    ensures Survives(s, m, lo, hi)
  {
    hide InvX, Only, DirsSpared, LeavesSpared, CountsSpared;
    InvSparesDirs(s, held, m, lo, hi);
    InvSparesLeaves(s, held, m, lo, hi);
    InvSparesCounts(s, held, m, lo, hi);
  }

  lemma InvSparesDirs(s: PM, held: set<int>, m: seq<Page>, lo: int, hi: int)
    requires InvX(s, held, {}) && InvX(s.(mem := m), held, {}) && Only(s, m, lo, hi) && FIRST_MANAGED <= lo
    ensures DirsSpared(s, m, lo, hi)
  {
    hide FreeOk, CountsOk, Only, LeavesOk;
    var s1 := s.(mem := m);
    forall c, i | c in s.dirs && lo <= c < hi && 0 <= i < ENTRIES
      ensures SlotSpared(s, m, c, i)
    {
      OutsideAt(s, m, lo, hi, s.kern, i);
      if !SharedSlot(s, i) {
        assert IsOwn(s, c, i) && IsOwn(s1, c, i);
        if Present(At(s.mem, c, i)) {
          assert OwnedTable(s, c, i);
          assert PointsTo(s1, s1.tables[Frame(At(s.mem, c, i))], Frame(At(s.mem, c, i)));
        }
        if Present(At(m, c, i)) {
          assert OwnedTable(s1, c, i);
          assert PointsTo(s, s.tables[Frame(At(m, c, i))], Frame(At(m, c, i)));
        }
      }
    }
  }

  lemma InvSparesLeaves(s: PM, held: set<int>, m: seq<Page>, lo: int, hi: int)
    requires InvX(s.(mem := m), held, {})
    ensures LeavesSpared(s, m, lo, hi)
  {
    hide FreeOk, CountsOk, SlotsOk, OwnersOk, SharedOk;
    var s1 := s.(mem := m);
    forall t, i | t in s.tables && lo <= t < hi && 0 <= i < ENTRIES && Present(At(m, t, i))
      ensures LeafOk(s, t, Frame(At(m, t, i)))
    {
      assert LeafOk(s1, t, Frame(At(s1.mem, t, i)));
    }
  }

  lemma InvSparesCounts(s: PM, held: set<int>, m: seq<Page>, lo: int, hi: int)
    requires InvX(s, held, {}) && InvX(s.(mem := m), held, {}) && Only(s, m, lo, hi) && FIRST_MANAGED <= lo && DirsSpared(s, m, lo, hi)
    ensures CountsSpared(s, m, lo, hi)
  {
    hide Only, DirsSpared, Refs, Entries, SlotsOk, OwnersOk, SharedOk, LeavesOk, FreeOk, DirsOk, Shape;
    var s1 := s.(mem := m);
    forall f | Managed(f)
      ensures |Entries(s, m, lo, hi, f)| == |Entries(s, s.mem, lo, hi, f)|
    {
      RefsCard(s, m, lo, hi, f);
      assert Refs(s, f) - {} == Refs(s, f) && Refs(s1, f) - {} == Refs(s1, f);
      assert RefAt(s.refs, f) == Expected(s, {}, f);
      assert RefAt(s1.refs, f) == Expected(s1, {}, f);
    }
  }
}
