/** The two-level address split and the page-table entry format of inc/mmu.h,
    together with the page/address conversions of kernel/include/pmap.h.

    Words are 32-bit numbers.  A page-table entry is a frame number in its upper 20
    bits and attribute bits in its lower 12, of which bit 0 is the present bit. */
module Mmu {

  const PGSIZE := 4096
  const ENTRIES := 1024                  // NPDENTRIES and NPTENTRIES
  const NPAGES := 0x8000                 // npages in kernel/include/pmap.h
  const FIRST_MANAGED := 0x400           // frames below hold the kernel image and devices
  const TWO_32 := 0x1_0000_0000

  const PTE_P := 1
  const PTE_W := 2
  const PTE_U := 4

  type Word = w: int | 0 <= w < TWO_32

  type Page = p: seq<Word> | |p| == ENTRIES witness seq(ENTRIES, _ => 0)

  function ZeroPage(): (p: Page)
    ensures forall i :: 0 <= i < ENTRIES ==> p[i] == 0
  {
    seq(ENTRIES, _ => 0)
  }

  /** Page directory index, page table index and offset of a linear address. */
  function Pdx(va: Word): int { va / 0x40_0000 }

  function Ptx(va: Word): int { va / PGSIZE % ENTRIES }

  function PgOff(va: Word): int { va % PGSIZE }

  /** Rebuilds a linear address from its three parts. */
  function PgAddr(d: int, t: int, o: int): int { d * 0x40_0000 + t * PGSIZE + o }

  function Present(w: Word): bool { w % 2 == 1 }

  /** PTE_ADDR, as a frame number. */
  function Frame(w: Word): int { w / PGSIZE }

  function Attr(w: Word): int { w % PGSIZE }

  /** page2pa(frame) | attr, for attributes that fit below the frame bits. */
  function Pte(frame: int, attr: int): Word { (frame * PGSIZE + attr) % TWO_32 }

  /** perm | PTE_P */
  function WithP(perm: int): int { if perm % 2 == 1 then perm else perm + 1 }

  /** ROUNDDOWN and ROUNDUP for 32-bit unsigned arithmetic, in units of pages. */
  function PageDown(a: Word): int { a / PGSIZE }

  function PageUp(a: Word): int { (a + PGSIZE - 1) % TWO_32 / PGSIZE }

  /** The address split loses nothing: the three parts are in range and determine the address. */
  lemma AddressSplit(va: Word)
    ensures 0 <= Pdx(va) < ENTRIES && 0 <= Ptx(va) < ENTRIES && 0 <= PgOff(va) < PGSIZE
    ensures PgAddr(Pdx(va), Ptx(va), PgOff(va)) == va
  {
  }

  lemma AddressJoin(d: int, t: int, o: int)
    requires 0 <= d < ENTRIES && 0 <= t < ENTRIES && 0 <= o < PGSIZE
    ensures 0 <= PgAddr(d, t, o) < TWO_32
    ensures Pdx(PgAddr(d, t, o)) == d && Ptx(PgAddr(d, t, o)) == t && PgOff(PgAddr(d, t, o)) == o
  {
    var a := PgAddr(d, t, o);
    assert a == d * 0x40_0000 + (t * PGSIZE + o) && 0 <= t * PGSIZE + o < 0x40_0000;
    assert a / 0x40_0000 == d;
    assert a == (d * ENTRIES + t) * PGSIZE + o;
    assert a / PGSIZE == d * ENTRIES + t;
    assert (d * ENTRIES + t) % ENTRIES == t;
  }

  lemma PteFields(frame: int, attr: int)
    requires 0 <= frame < 0x10_0000 && 0 <= attr < PGSIZE
    ensures Frame(Pte(frame, attr)) == frame && Attr(Pte(frame, attr)) == attr
    ensures Present(Pte(frame, attr)) == (attr % 2 == 1)
  {
  }
}
