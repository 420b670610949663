/** The on-disk format of kernel/include/file.h, byte by byte: sectors, 32-bit words in
    little-endian order, directory entries, inodes, and the allocation bitmap. */
module DiskFormat {

  const BLOCK := 512
  const NR_BLOCKS := 128              // block slots of an inode
  const NR_ENTRIES := 16              // directory entries of a sector
  const SC_BITMAP := 256
  const SC_DIR := 256
  const SC_INODE := 256
  const SC_DATA := 32768              // 512 / 4 * SC_INODE
  const LEN_FILENAME := 24
  const TWO_32 := 0x1_0000_0000
  const NO_BLOCK := 0xFFFF_FFFF       // a slot or an inode number that is not in use

  type Byte = b: int | 0 <= b < 256
  type U32 = x: int | 0 <= x < TWO_32
  type Sector = s: seq<Byte> | |s| == BLOCK witness seq(BLOCK, _ => 0)

  function ZeroSector(): (s: Sector)
    ensures forall i :: 0 <= i < BLOCK ==> s[i] == 0
  {
    seq(BLOCK, _ => 0)
  }

  /** memset2(inode.data_block_offsets, 0xFF, 512) */
  function FullSector(): (s: Sector)
    ensures forall i :: 0 <= i < BLOCK ==> s[i] == 255
  {
    seq(BLOCK, _ => 255)
  }

  // ---- numbers of blocks, entries and slices (the divisors written out for the solver)

  /** The block of a byte offset, and the position inside it. */
  function BlockNo(off: int): int { off / 512 }

  function InBlock(off: int): int { off % 512 }

  lemma NextBlock(off: int)
    ensures InBlock(off + (BLOCK - InBlock(off))) == 0
    ensures BlockNo(off + (BLOCK - InBlock(off))) == BlockNo(off) + 1
  {
  }

  /** The directory sector of an entry, and the position inside it. */
  function DirNo(x: int): int { x / 16 }

  function DirPos(x: int): int { x % 16 }

  /** The bitmap slice with the bit of a sector. */
  function SliceNo(sec: int): int { sec / 4096 }

  // ---- where things are; sector numbers

  function LocDir(x: int): int { 1 + SC_BITMAP + x }

  /** LOC_INODE and LOC_DATA in 32 bits, so that they say something of unused numbers too:
      sector 512 and sector 768. */
  function LocINode(x: int): int { (1 + SC_BITMAP + SC_DIR + x) % 0x1_0000_0000 }

  function LocData(x: int): int { (1 + SC_BITMAP + SC_DIR + SC_INODE + x) % 0x1_0000_0000 }

  /** Bits of the first bitmap sector stand for the sectors below this one. */
  const FIRST_SLICE := 4096

  /** Data blocks whose bit lies in the first bitmap sector. */
  const SAFE_BLOCKS := FIRST_SLICE - (1 + SC_BITMAP + SC_DIR + SC_INODE)

  // ---- readsect and writesect

  /** A drive of |disk| sectors; reading elsewhere gives zeros, writing elsewhere is lost. */
  function Sec(disk: seq<Sector>, i: int): Sector {
    if 0 <= i < |disk| then disk[i] else ZeroSector()
  }

  function Save(disk: seq<Sector>, i: int, s: Sector): seq<Sector> {
    if 0 <= i < |disk| then disk[i := s] else disk
  }

  // ---- words

  /** A 32-bit word of four bytes, the least significant one first. */
  function Join(b0: int, b1: int, b2: int, b3: int): int { b0 + b1 * 0x100 + b2 * 0x1_0000 + b3 * 0x100_0000 }

  function WordAt(s: Sector, i: int): U32 {
    if 0 <= i < NR_BLOCKS then Join(s[4 * i], s[4 * i + 1], s[4 * i + 2], s[4 * i + 3]) else 0
  }

  function SetWord(s: Sector, i: int, w: U32): Sector {
    if 0 <= i < NR_BLOCKS
    then s[4 * i := w % 0x100][4 * i + 1 := w / 0x100 % 0x100][4 * i + 2 := w / 0x1_0000 % 0x100][4 * i + 3 := w / 0x100_0000]
    else s
  }

  lemma JoinBytes(w: U32)
    ensures Join(w % 0x100, w / 0x100 % 0x100, w / 0x1_0000 % 0x100, w / 0x100_0000) == w
  {
    assert w / 0x1_0000 == w / 0x100_0000 * 0x100 + w / 0x1_0000 % 0x100;
    assert w / 0x100 == w / 0x1_0000 * 0x100 + w / 0x100 % 0x100;
  }

  /** Storing a word changes that word only. */
  lemma SetWordAt(s: Sector, i: int, w: U32, j: int)
    requires 0 <= i < NR_BLOCKS
    ensures WordAt(SetWord(s, i, w), j) == if j == i then w else WordAt(s, j)
  {
    hide Join;
    JoinBytes(w);
  }

  /** Storing a word leaves all bytes of the other words as they were. */
  lemma SetWordByte(s: Sector, i: int, w: U32, k: int)
    requires 0 <= i < NR_BLOCKS && 0 <= k < BLOCK && k / 4 != i
    ensures SetWord(s, i, w)[k] == s[k]
  {
  }

  lemma FullWord(j: int)
    requires 0 <= j < NR_BLOCKS
    ensures WordAt(FullSector(), j) == NO_BLOCK
  {
  }

  // ---- directory entries: 24 bytes of name, the file size, the inode number

  const ENTRIES := SC_DIR * NR_ENTRIES

  function SizeWord(e: int): int { 8 * e + 6 }

  function INodeWord(e: int): int { 8 * e + 7 }

  /** Entry x is entry x % 16 of directory sector x / 16. */
  function DirSec(disk: seq<Sector>, x: int): Sector { Sec(disk, LocDir(DirNo(x))) }

  function Size(disk: seq<Sector>, x: int): U32 { WordAt(DirSec(disk, x), SizeWord(DirPos(x))) }

  function Ino(disk: seq<Sector>, x: int): U32 { WordAt(DirSec(disk, x), INodeWord(DirPos(x))) }

  function Name(disk: seq<Sector>, x: int): seq<Byte> {
    DirSec(disk, x)[32 * DirPos(x)..32 * DirPos(x) + LEN_FILENAME]
  }

  /** Slot j of inode number `ino`. */
  function Slot(disk: seq<Sector>, ino: int, j: int): U32 { WordAt(Sec(disk, LocINode(ino)), j) }

  // ---- the bitmap, as 256 slices of a sector each

  const KERNEL_STRIDE := 512          // readBitmap of the kernel: slice c at sector 1 + (c << 9)
  const HOST_STRIDE := 1              // readBitmap of copy2myfs: slice c at sector 1 + c

  function Slice(disk: seq<Sector>, stride: nat, sec: nat): Sector { Sec(disk, 1 + stride * (SliceNo(sec))) }

  /** The bit of a sector in the bitmap. */
  predicate Bit(disk: seq<Sector>, stride: nat, sec: nat) { HasBit(Slice(disk, stride, sec)[sec / 8 % 512], sec % 8) }

  function MarkSlice(s: Sector, sec: nat): Sector { s[sec / 8 % 512 := MarkByte(s[sec / 8 % 512], sec % 8)] }

  /** Sets the bit of a sector. */
  function Mark(disk: seq<Sector>, stride: nat, sec: nat): seq<Sector> {
    Save(disk, 1 + stride * (SliceNo(sec)), MarkSlice(Slice(disk, stride, sec), sec))
  }

  // ---- bits

  /** b & (1 << r) */
  predicate HasBit(b: int, r: nat)
    decreases r
  {
    if r == 0 then b % 2 == 1 else HasBit(b / 2, r - 1)
  }

  /** b | (1 << r) */
  function WithBit(b: int, r: nat): int
    decreases r
  {
    if r == 0 then b / 2 * 2 + 1 else WithBit(b / 2, r - 1) * 2 + b % 2
  }

  lemma {:induction false} WithBitHas(b: int, r: nat, q: nat)
    decreases r
    ensures HasBit(WithBit(b, r), q) == (q == r || HasBit(b, q))
  {
    if r > 0 && q > 0 {
      WithBitHas(b / 2, r - 1, q - 1);
    }
  }

  lemma {:induction false} WithBitByte(b: int, r: nat, n: nat)
    requires r < n && 0 <= b < Pow2(n)
    decreases r
    ensures 0 <= WithBit(b, r) < Pow2(n)
  {
    if r > 0 {
      WithBitByte(b / 2, r - 1, n - 1);
    }
  }

  function Pow2(n: nat): nat { if n == 0 then 1 else 2 * Pow2(n - 1) }

  function MarkByte(b: Byte, r: nat): Byte
    requires r < 8
  {
    assert 0 <= WithBit(b, r) < 256 by { assert Pow2(8) == 256; WithBitByte(b, r, 8); }
    WithBit(b, r)
  }

  // ---- the format, byte by byte

  /** Four bytes of a sector as a number, the least significant first. */
  function Little(s: Sector, at: int): int
    requires 0 <= at && at + 3 < BLOCK
  {
    var b0: int, b1: int, b2: int, b3: int := s[at], s[at + 1], s[at + 2], s[at + 3];
    b0 + 256 * b1 + 65536 * b2 + 16777216 * b3
  }

  lemma WordIs(s: Sector, i: int)
    requires 0 <= i < NR_BLOCKS
    ensures WordAt(s, i) == Little(s, 4 * i)
  {
  }

  /** A directory entry takes 32 bytes, sixteen of them a sector, from sector 257 on: 24 bytes of
      name, the size, the inode number.  An inode is one of the sectors from 513 on, 128 block
      numbers, and block b is sector 769 + b. */
  lemma Layout(disk: seq<Sector>, x: int, ino: int, j: int, b: int)
    requires |disk| == 769 + SC_DATA && 0 <= x < ENTRIES && 0 <= ino < SC_INODE && 0 <= j < NR_BLOCKS && 0 <= b < SC_DATA
    ensures var d, at := disk[257 + x / 16], 32 * (x % 16);
            Name(disk, x) == d[at..at + 24] && Size(disk, x) == Little(d, at + 24) && Ino(disk, x) == Little(d, at + 28)
    ensures Slot(disk, ino, j) == Little(disk[513 + ino], 4 * j) && Sec(disk, LocData(b)) == disk[769 + b]
  {
    hide WordAt, Little;
    WordIs(disk[257 + x / 16], 8 * (x % 16) + 6);
    WordIs(disk[257 + x / 16], 8 * (x % 16) + 7);
    WordIs(disk[513 + ino], j);
  }

  /** Bit r of a byte, counted from the lowest. */
  predicate BitSet(b: int, r: int)
    requires 0 <= r < 8
  {
    if r == 0 then b % 2 == 1 else if r == 1 then b / 2 % 2 == 1 else if r == 2 then b / 4 % 2 == 1
    else if r == 3 then b / 8 % 2 == 1 else if r == 4 then b / 16 % 2 == 1 else if r == 5 then b / 32 % 2 == 1
    else if r == 6 then b / 64 % 2 == 1 else b / 128 % 2 == 1
  }

  lemma BitIs(b: Byte, r: nat)
    requires r < 8
    ensures HasBit(b, r) <==> BitSet(b, r)
  {
    if r > 0 { assert HasBit(b, r) == HasBit(b / 2, r - 1); }
    if r > 1 { assert HasBit(b / 2, r - 1) == HasBit(b / 4, r - 2) by { assert b / 2 / 2 == b / 4; } }
    if r > 2 { assert HasBit(b / 4, r - 2) == HasBit(b / 8, r - 3) by { assert b / 4 / 2 == b / 8; } }
    if r > 3 { assert HasBit(b / 8, r - 3) == HasBit(b / 16, r - 4) by { assert b / 8 / 2 == b / 16; } }
    if r > 4 { assert HasBit(b / 16, r - 4) == HasBit(b / 32, r - 5) by { assert b / 16 / 2 == b / 32; } }
    if r > 5 { assert HasBit(b / 32, r - 5) == HasBit(b / 64, r - 6) by { assert b / 32 / 2 == b / 64; } }
    if r > 6 { assert HasBit(b / 64, r - 6) == HasBit(b / 128, r - 7) by { assert b / 64 / 2 == b / 128; } }
  }

  /** The bit of a sector is bit sec % 8, counted from the lowest, of byte sec / 8 of the bitmap,
      512 bytes a sector, which the kernel and the host look for at different sectors. */
  lemma BitLayout(disk: seq<Sector>, stride: nat, sec: nat)
    requires 1 + stride * (sec / 4096) < |disk|
    ensures Bit(disk, stride, sec) <==> BitSet(disk[1 + stride * (sec / 4096)][sec / 8 % 512], sec % 8)
  {
    hide HasBit, BitSet;
    BitIs(disk[1 + stride * (sec / 4096)][sec / 8 % 512], sec % 8);
  }
}
