/** What the operations of kernel/src/paging/pmap.c compute, as functions on a value.

    `PM` is the machine state those operations change: the contents of every physical
    page, the reference counts, and the free list as a sequence.  `width` is the number of
    pages that clearing or copying "one page" touches: WIDTH in the code, 1 by its comments;
    nothing else depends on it, and the lemmas hold for both.  `dirs` and `tables`
    are specification state: the page directories of processes, and for every page
    table that was taken from the free list the directory slot that owns it.
    Addresses of pages are frame numbers, linear addresses are page numbers (`vpn`). */
module PageSpec {
  import opened Mmu

  datatype Slot = Slot(page: int, idx: int)

  datatype PM = PM(mem: seq<Page>, refs: seq<int>, free: seq<int>,
                   kern: int, dirs: set<int>, tables: map<int, Slot>, width: int)

  /** memset and memcpy take PGSIZE for a number of double words. */
  const WIDTH := 4

  predicate Managed(f: int) { FIRST_MANAGED <= f < NPAGES }

  // ---- reading and writing words, pages and counts

  function At(mem: seq<Page>, c: int, i: int): Word {
    if 0 <= c < |mem| && 0 <= i < ENTRIES then mem[c][i] else 0
  }

  function Put(mem: seq<Page>, c: int, i: int, w: Word): seq<Page> {
    if 0 <= c < |mem| && 0 <= i < ENTRIES then mem[c := mem[c][i := w]] else mem
  }

  function PageAt(mem: seq<Page>, c: int): Page {
    if 0 <= c < |mem| then mem[c] else ZeroPage()
  }

  function RefAt(refs: seq<int>, f: int): int {
    if 0 <= f < |refs| then refs[f] else 0
  }

  function AddRef(refs: seq<int>, f: int, d: int): seq<int> {
    if 0 <= f < |refs| then refs[f := refs[f] + d] else refs
  }

  /** memset(page2kva(p), 0, PGSIZE): page p and those behind it, w pages in all, are cleared. */
  function Zeroed(mem: seq<Page>, p: int, w: int): seq<Page> { ZeroFrom(mem, p, w, 0) }

  function ZeroFrom(mem: seq<Page>, p: int, w: int, j: nat): (r: seq<Page>)
    ensures |r| == |mem|
    ensures forall f :: 0 <= f < |mem| && !(p + j <= f < p + w) ==> r[f] == mem[f]
    ensures forall f :: 0 <= f < |mem| && p + j <= f < p + w ==> r[f] == ZeroPage()
    decreases w - j
  {
    if j >= w then mem
    else ZeroFrom(if 0 <= p + j < |mem| then mem[p + j := ZeroPage()] else mem, p, w, j + 1)
  }

  /** memcpy(dst, src, PGSIZE): it moves upwards, so page by page it copies the page and then
      those behind it, w pages in all. */
  function Copied(mem: seq<Page>, dst: int, src: int, w: int): seq<Page> { CopyFrom(mem, dst, src, w, 0) }

  function CopyFrom(mem: seq<Page>, dst: int, src: int, w: int, j: nat): (r: seq<Page>)
    ensures |r| == |mem|
    ensures forall f :: 0 <= f < |mem| && !(dst + j <= f < dst + w) ==> r[f] == mem[f]
    ensures j < w && 0 <= dst + j < |mem| && 0 <= src + j < |mem| ==> r[dst + j] == mem[src + j]
    decreases w - j
  {
    if j >= w then mem
    else CopyFrom(if 0 <= dst + j < |mem| then mem[dst + j := PageAt(mem, src + j)] else mem, dst, src, w, j + 1)
  }

  // ---- the free list

  function Pop(s: PM): PM {
    if s.free == [] then s else s.(free := s.free[1..])
  }

  /** page_decref, with page_free inside. */
  function Decref(s: PM, f: int): PM {
    var s1 := s.(refs := AddRef(s.refs, f, -1));
    if RefAt(s1.refs, f) == 0 then s1.(free := [f] + s1.free) else s1
  }

  // ---- directories and tables

  /** The page directory made by pcb_create: a cleared page, counted once, then a copy of
      the kernel directory. */
  function NewDir(s: PM): PM {
    if s.free == [] then s else
    var p := s.free[0];
    s.(mem := Copied(Zeroed(s.mem, p, s.width), p, s.kern, s.width), refs := AddRef(s.refs, p, 1),
       free := s.free[1..], dirs := s.dirs + {p})
  }

  /** A cleared page becomes the table of slot (d, i). */
  function AddTable(s: PM, d: int, i: int, attr: int): PM {
    if s.free == [] then s else
    var p := s.free[0];
    s.(mem := Put(Zeroed(s.mem, p, s.width), d, i, Pte(p, attr)), refs := AddRef(s.refs, p, 1),
       free := s.free[1..], tables := s.tables[p := Slot(d, i)])
  }

  function TableOf(s: PM, d: int, vpn: int): int { Frame(At(s.mem, d, vpn / ENTRIES)) }

  /** pgdir_walk with create set: afterwards the table exists unless memory ran out. */
  function Walk(s: PM, d: int, vpn: int): PM {
    if Present(At(s.mem, d, vpn / ENTRIES)) then s
    else AddTable(s, d, vpn / ENTRIES, PTE_P + PTE_W + PTE_U)
  }

  /** page_remove at an address whose table is present. */
  function Remove(s: PM, d: int, vpn: int): PM {
    var t := TableOf(s, d, vpn);
    Decref(s.(mem := Put(s.mem, t, vpn % ENTRIES, 0)), Frame(At(s.mem, t, vpn % ENTRIES)))
  }

  /** page_remove at any address: where there is no table, it does nothing. */
  function RemoveAt(s: PM, d: int, vpn: int): PM {
    if Present(At(s.mem, d, vpn / ENTRIES)) then Remove(s, d, vpn) else s
  }

  /** page_insert of frame pp at vpn. */
  function Insert(s: PM, d: int, pp: int, vpn: int, perm: int): PM {
    var s1 := Walk(s, d, vpn);
    if !Present(At(s1.mem, d, vpn / ENTRIES)) then s1 else
    var t := TableOf(s1, d, vpn);
    var e := At(s1.mem, t, vpn % ENTRIES);
    var s2 := if Present(e) && Frame(e) != pp then Remove(s1, d, vpn) else s1;
    s2.(mem := Put(s2.mem, t, vpn % ENTRIES, Pte(pp, WithP(perm))), refs := AddRef(s2.refs, pp, 1))
  }

  /** One round of mm_alloc: a new page is mapped at vpn. */
  function MapNew(s: PM, d: int, vpn: int): PM {
    if s.free == [] then s
    else Insert(Pop(s), d, s.free[0], vpn, PTE_W + PTE_P + PTE_U)
  }

  function MmAlloc(s: PM, d: int, from: int, end: int): PM
    decreases end - from
  {
    if from >= end then s else MmAlloc(MapNew(s, d, from), d, from + 1, end)
  }

  // ---- copy_pgdir

  /** The entry ptx of table st, if present, is copied to table t with a new page. */
  function CopyEntry(s: PM, t: int, st: int, ptx: int): PM {
    var e := At(s.mem, st, ptx);
    if !Present(e) || s.free == [] then s else
    var p := s.free[0];
    s.(mem := Copied(Put(s.mem, t, ptx, Pte(p, Attr(e))), p, Frame(e), s.width),
       refs := AddRef(s.refs, p, 1), free := s.free[1..])
  }

  function CopyTable(s: PM, t: int, st: int, ptx: int): PM
    decreases ENTRIES - ptx
  {
    if ptx >= ENTRIES then s else CopyTable(CopyEntry(s, t, st, ptx), t, st, ptx + 1)
  }

  function CopySlot(s: PM, dst: int, src: int, pdx: int): PM {
    var e := At(s.mem, src, pdx);
    if !Present(e) || Present(At(s.mem, dst, pdx)) then s else
    var s1 := AddTable(s, dst, pdx, Attr(e));
    CopyTable(s1, Frame(At(s1.mem, dst, pdx)), Frame(e), 0)
  }

  function CopyDir(s: PM, dst: int, src: int, pdx: int): PM
    decreases ENTRIES - pdx
  {
    if pdx >= ENTRIES then s else CopyDir(CopySlot(s, dst, src, pdx), dst, src, pdx + 1)
  }

  // ---- free_pgdir

  function FreeEntry(s: PM, t: int, ptx: int): PM {
    var e := At(s.mem, t, ptx);
    if Present(e) then Decref(s, Frame(e)) else s
  }

  function FreeEntries(s: PM, t: int, ptx: int): PM
    decreases ENTRIES - ptx
  {
    if ptx >= ENTRIES then s else FreeEntries(FreeEntry(s, t, ptx), t, ptx + 1)
  }

  /** The table t itself is released and its directory slot cleared. */
  function DropTable(s: PM, d: int, pdx: int, t: int): PM {
    var s1 := Decref(s, t);
    s1.(mem := Put(s1.mem, d, pdx, 0), tables := s1.tables - {t})
  }

  function FreeSlot(s: PM, d: int, pdx: int): PM {
    var e := At(s.mem, d, pdx);
    if !Present(e) || Present(At(s.mem, s.kern, pdx)) then s
    else DropTable(FreeEntries(s, Frame(e), 0), d, pdx, Frame(e))
  }

  function FreeDir(s: PM, d: int, pdx: int): PM
    decreases ENTRIES - pdx
  {
    if pdx >= ENTRIES then s else FreeDir(FreeSlot(s, d, pdx), d, pdx + 1)
  }

  // ---- translation

  datatype Mapping = Unmapped | Mapped(frame: int, attr: int)

  /** What the two-level walk of the processor finds for page number vpn in directory d. */
  function Translate(s: PM, d: int, vpn: int): Mapping {
    var e := At(s.mem, d, vpn / ENTRIES);
    if !Present(e) then Unmapped else
    var w := At(s.mem, Frame(e), vpn % ENTRIES);
    if Present(w) then Mapped(Frame(w), Attr(w)) else Unmapped
  }
}
