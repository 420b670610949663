/** The boot path.  The loader knows nothing of inodes: it reads the kernel from the first data
    sectors on.  That works because the host tool, on a freshly formatted disk, puts the first
    file into inode 0 and the data blocks 0, 1, 2, ... in order. */
module FileBoot {
  import opened DiskFormat
  import opened FileSpec
  import opened FileBytes
  import opened DiskSteps
  import opened FileInvariant
  import opened FileEntry
  import opened FileHost
  import opened FileRuns

  // ---- readseg of inc/disk.h

  /** A sector arrives at address pa. */
  function Store(mem: seq<Byte>, pa: int, s: Sector): seq<Byte> {
    if 0 <= pa && pa + BLOCK <= |mem| then mem[..pa] + s + mem[pa + BLOCK..] else mem
  }

  /** Sector after sector is read to the addresses from pa on, until epa is reached. */
  function ReadLoop(disk: seq<Sector>, mem: seq<Byte>, pa: int, epa: int, sector: int): seq<Byte>
    decreases epa - pa
  {
    if pa < epa then ReadLoop(disk, Store(mem, pa, Sec(disk, sector)), pa + BLOCK, epa, sector + 1) else mem
  }

  function ReadSeg(disk: seq<Sector>, mem: seq<Byte>, pa: int, count: int, offset: nat): seq<Byte> {
    ReadLoop(disk, mem, pa - InBlock(offset), pa + count, BlockNo(offset) + 1)
  }

  /** Byte `at` of the drive. */
  function DriveByte(disk: seq<Sector>, at: nat): Byte { Sec(disk, BlockNo(at))[InBlock(at)] }

  lemma StoreBytes(mem: seq<Byte>, pa: int, s: Sector)
    requires 0 <= pa && pa + BLOCK <= |mem|
    ensures |Store(mem, pa, s)| == |mem|
    ensures forall a :: 0 <= a < |mem| ==> Store(mem, pa, s)[a] == if pa <= a < pa + BLOCK then s[a - pa] else mem[a]
  {
  }

  lemma {:induction false} ReadLoopBytes(disk: seq<Sector>, mem: seq<Byte>, pa: int, epa: int, sector: nat)
    requires 0 <= pa && epa + BLOCK <= |mem| + 1
    decreases epa - pa
    ensures var mem' := ReadLoop(disk, mem, pa, epa, sector);
            |mem'| == |mem|
            && (forall a :: pa <= a < epa ==> mem'[a] == DriveByte(disk, 512 * sector + (a - pa)))
            && (forall a :: 0 <= a < |mem| && (a < pa || a >= epa + BLOCK) ==> mem'[a] == mem[a])
  {
    hide Store, Sec;
    if pa < epa {
      var mem1 := Store(mem, pa, Sec(disk, sector));
      StoreBytes(mem, pa, Sec(disk, sector));
      ReadLoopBytes(disk, mem1, pa + BLOCK, epa, sector + 1);
      var mem' := ReadLoop(disk, mem1, pa + BLOCK, epa, sector + 1);
      forall a | pa <= a < epa
        ensures mem'[a] == DriveByte(disk, 512 * sector + (a - pa))
      {
        if a < pa + BLOCK {
          assert BlockNo(512 * sector + (a - pa)) == sector && InBlock(512 * sector + (a - pa)) == a - pa;
        } else {
          assert 512 * sector + (a - pa) == 512 * (sector + 1) + (a - (pa + BLOCK));
        }
      }
    }
  }

  /** readseg puts the bytes of the drive from 512 + offset on at pa, and no byte more than a
      sector away from that range. */
  lemma ReadSegBytes(disk: seq<Sector>, mem: seq<Byte>, pa: int, count: int, offset: nat)
    requires InBlock(offset) <= pa && pa + count + BLOCK <= |mem| + 1
    ensures var mem' := ReadSeg(disk, mem, pa, count, offset);
            |mem'| == |mem|
            && (forall a :: pa <= a < pa + count ==> mem'[a] == DriveByte(disk, BLOCK + offset + (a - pa)))
            && (forall a :: 0 <= a < |mem| && (a < pa - InBlock(offset) || a >= pa + count + BLOCK) ==> mem'[a] == mem[a])
  {
    hide ReadLoop, DriveByte;
    ReadLoopBytes(disk, mem, pa - InBlock(offset), pa + count, BlockNo(offset) + 1);
    assert 512 * BlockNo(offset) + InBlock(offset) == offset;
    var mem' := ReadSeg(disk, mem, pa, count, offset);
    forall a | pa <= a < pa + count
      ensures mem'[a] == DriveByte(disk, BLOCK + offset + (a - pa))
    {
      assert 512 * (BlockNo(offset) + 1) + (a - (pa - InBlock(offset))) == BLOCK + offset + (a - pa);
    }
  }

  // ---- the first copy

  /** In the bitmap exactly the first `n` data blocks are taken. */
  ghost predicate TakenUpTo(bits: seq<Sector>, n: nat) {
    |bits| == BITS && forall b :: 0 <= b < SC_DATA ==> Taken(bits, HOST_STRIDE, 769, b) == (b < n)
  }

  lemma NextBlockTaken(bits: seq<Sector>, n: nat)
    requires TakenUpTo(bits, n) && n < SC_DATA
    ensures DataAlloc(bits, HOST_STRIDE).1 == n && TakenUpTo(DataAlloc(bits, HOST_STRIDE).0, n + 1)
  {
    hide Bit, Mark;
    FirstClearFinds(bits, HOST_STRIDE, 769, SC_DATA, 0);
    var k := FirstClear(bits, HOST_STRIDE, 769, SC_DATA, 0);
    assert !Taken(bits, HOST_STRIDE, 769, n);
    assert k < SC_DATA ==> !Taken(bits, HOST_STRIDE, 769, k);
    assert k == n;
    var bits1 := Mark(bits, HOST_STRIDE, 769 + n);
    forall b | 0 <= b < SC_DATA
      ensures Taken(bits1, HOST_STRIDE, 769, b) == (b < n + 1)
    {
      assert Taken(bits, HOST_STRIDE, 769, b) == (b < n);
      MarkBit(bits, HOST_STRIDE, 769 + n, 769 + b);
    }
    MarkElsewhere(bits, HOST_STRIDE, 769 + n, 0);
  }

  /** Byte k of the blocks of a file: its own, and zeros up to the end of the last block. */
  function Padded(file: seq<Byte>, k: nat): Byte { if k < |file| then file[k] else 0 }

  /** The copy loop fills the blocks one after the other. */
  lemma {:induction false} LoopInOrder(disk: seq<Sector>, bits: seq<Sector>, inode: Sector, file: seq<Byte>, off: nat)
    requires |disk| == 769 + SC_DATA && InBlock(off) == 0 && off <= 512 * Blocks(|file|) && Blocks(|file|) <= SC_DATA
    requires TakenUpTo(bits, BlockNo(off))
    decreases |file| - off
    ensures var (disk', bits', inode') := HostLoop(disk, bits, inode, file, off);
            |disk'| == |disk| && |bits'| == BITS
            && (forall i :: !(769 + BlockNo(off) <= i < 769 + Blocks(|file|)) ==> Sec(disk', i) == Sec(disk, i))
            && (forall k :: off <= k < 512 * Blocks(|file|) ==> Sec(disk', 769 + BlockNo(k))[InBlock(k)] == Padded(file, k))
            && (forall j :: 0 <= j < NR_BLOCKS ==>
                 WordAt(inode', j) == if BlockNo(off) <= j < Blocks(|file|) then j else WordAt(inode, j))
  {
    hide Sec, Save, WordAt, SetWord, DataAlloc, Taken, Chunk, TakenUpTo;
    if off < |file| {
      var i := BlockNo(off);
      NextBlockTaken(bits, i);
      var bits1 := DataAlloc(bits, HOST_STRIDE).0;
      var disk1 := Save(disk, LocData(i), Chunk(file, off));
      var inode1 := SetWord(inode, i, i);
      assert LocData(i) == 769 + i && BlockNo(off + BLOCK) == i + 1;
      SaveSec(disk, 769 + i, Chunk(file, off), 0);
      LoopInOrder(disk1, bits1, inode1, file, off + BLOCK);
      var (disk', bits', inode') := HostLoop(disk1, bits1, inode1, file, off + BLOCK);
      forall n | !(769 + i <= n < 769 + Blocks(|file|))
        ensures Sec(disk', n) == Sec(disk, n)
      {
        SaveSec(disk, 769 + i, Chunk(file, off), n);
      }
      assert Sec(disk', 769 + i) == Chunk(file, off) by { SaveSec(disk, 769 + i, Chunk(file, off), 769 + i); }
      forall k | off <= k < 512 * Blocks(|file|)
        ensures Sec(disk', 769 + BlockNo(k))[InBlock(k)] == Padded(file, k)
      {
        if k < off + BLOCK {
          assert BlockNo(k) == i && InBlock(k) == k - off;
          ChunkByte(file, off, k);
        }
      }
      forall j | 0 <= j < NR_BLOCKS
        ensures WordAt(inode1, j) == if j == i then i else WordAt(inode, j)
      {
        StoreWord(inode, i, j);
      }
    } else {
      assert Blocks(|file|) == BlockNo(off);
      assert |bits| == BITS by { TakenSize(bits, BlockNo(off)); }
    }
  }

  lemma TakenSize(bits: seq<Sector>, n: nat)
    requires TakenUpTo(bits, n)
    ensures |bits| == BITS
  {
  }

  /** A slot number past the end of the inode stores nothing, as in the tool. */
  lemma StoreWord(inode: Sector, i: nat, j: int)
    requires i < SC_DATA && 0 <= j < NR_BLOCKS
    ensures WordAt(SetWord(inode, i, i), j) == if j == i then i else WordAt(inode, j)
  {
    if i < NR_BLOCKS {
      hide SetWord, WordAt;
      SetWordAt(inode, i, i, j);
    }
  }

  lemma ChunkByte(file: seq<Byte>, off: nat, k: nat)
    requires off < |file| && off <= k < off + BLOCK
    ensures Chunk(file, off)[k - off] == Padded(file, k)
  {
  }

  lemma ZeroBits(disk: seq<Sector>, sec: nat)
    requires Formatted(disk) && sec < 769 + SC_DATA
    ensures !Bit(BitsOf(disk), HOST_STRIDE, sec)
  {
    hide HasBit;
    assert Sec(disk, 1 + SliceNo(sec)) == ZeroSector();
    assert Sec(BitsOf(disk), 1 + SliceNo(sec)) == ZeroSector();
    ZeroHasNone(sec % 8);
  }

  /** Inode 0 is taken first, and the data bits stay clear. */
  lemma FirstINode(disk: seq<Sector>)
    requires Formatted(disk)
    ensures var (bits, ino) := INodeAlloc(BitsOf(disk), HOST_STRIDE);
            ino == 0 && TakenUpTo(bits, 0)
  {
    hide Bit, Mark, Formatted, Sec;
    var bits0 := BitsOf(disk);
    assert |bits0| == BITS by { FormattedSize(disk); }
    ZeroBits(disk, 513);
    assert !Taken(bits0, HOST_STRIDE, 513, 0);
    FirstClearFinds(bits0, HOST_STRIDE, 513, SC_INODE, 0);
    forall b | 0 <= b < SC_DATA
      ensures !Taken(Mark(bits0, HOST_STRIDE, 513), HOST_STRIDE, 769, b)
    {
      ZeroBits(disk, 769 + b);
      MarkBit(bits0, HOST_STRIDE, 513, 769 + b);
    }
    MarkElsewhere(bits0, HOST_STRIDE, 513, 0);
  }

  /** The first file on a formatted disk: inode 0, slot j holds block j, and the blocks hold
      the bytes in order, also those beyond the 128 that the inode can name. */
  lemma FirstCopy(disk: seq<Sector>, name: seq<Byte>, file: seq<Byte>)
    requires Formatted(disk) && |name| < LEN_FILENAME && |file| <= SC_DATA * BLOCK
    ensures var disk' := HostCopy(disk, name, file);
            HostFind(disk, name, 0) == 0 && Ino(disk', 0) == 0 && Size(disk', 0) == |file| && SameName(disk', 0, name)
            && (forall j :: 0 <= j < NR_BLOCKS && j < Blocks(|file|) ==> Slot(disk', 0, j) == j)
            && (forall k :: 0 <= k < 512 * Blocks(|file|) ==> Sec(disk', 769 + BlockNo(k))[InBlock(k)] == Padded(file, k))
  {
    hide Formatted, Sec, HostLoop, HostCopyTo, INodeAlloc, BitsOf, TakenUpTo, Ino, Size, WordAt, FullSector, PutEntry, SameName;
    FormattedEntry(disk, 0);
    assert HostFind(disk, name, 0) == 0 by { FoundFirst(disk, name); }
    FirstINode(disk);
    FormattedSize(disk);
    assert |disk| == 769 + SC_DATA by { FormattedLength(disk); }
    var bits1 := INodeAlloc(BitsOf(disk), HOST_STRIDE).0;
    LoopInOrder(disk, bits1, FullSector(), file, 0);
    HostSectors(disk, 0, name, file);
    var disk' := HostCopy(disk, name, file);
    var mid := PutEntry(disk, 0, name, |file|, 0);
    SameEntry(mid, disk', 0);
    PutEntryEffect(disk, 0, name, |file|, 0, 0);
    SameNameIn(mid, disk', name);
  }

  lemma FormattedLength(disk: seq<Sector>)
    requires Formatted(disk)
    ensures |disk| == 769 + SC_DATA
  {
  }

  lemma FoundFirst(disk: seq<Sector>, name: seq<Byte>)
    requires Ino(disk, 0) == NO_BLOCK
    ensures HostFind(disk, name, 0) == 0
  {
  }

  lemma SameNameIn(disk: seq<Sector>, disk': seq<Sector>, name: seq<Byte>)
    requires Name(disk', 0) == Name(disk, 0) && SameName(disk, 0, name)
    ensures SameName(disk', 0, name)
  {
  }

  /** The loader's offset of the kernel: (256 + 256 + 256) * SECTSIZE. */
  const KERNEL_OFFSET := 768 * 512

  lemma FirstDriveByte(disk: seq<Sector>, file: seq<Byte>, k: nat)
    requires k < |file| && Sec(disk, 769 + BlockNo(k))[InBlock(k)] == file[k]
    ensures DriveByte(disk, 769 * 512 + k) == file[k]
  {
    hide Sec;
    assert BlockNo(769 * 512 + k) == 769 + BlockNo(k) && InBlock(769 * 512 + k) == InBlock(k);
  }

  /** The loader gets the kernel: reading `count` bytes at file position `off` of the first
      file copied puts exactly those bytes of the file at the requested address. */
  lemma BootLoads(disk: seq<Sector>, name: seq<Byte>, file: seq<Byte>, mem: seq<Byte>, pa: int, off: nat, count: nat)
    requires Formatted(disk) && |name| < LEN_FILENAME && |file| <= SC_DATA * BLOCK && off + count <= |file|
    requires InBlock(off) <= pa && pa + count + BLOCK <= |mem| + 1
    ensures var mem' := ReadSeg(HostCopy(disk, name, file), mem, pa, count, KERNEL_OFFSET + off);
            |mem'| == |mem| && mem'[pa..pa + count] == file[off..off + count]
  {
    hide Formatted, HostCopy, HostFind, Ino, Size, SameName, Sec, ReadSeg, Slot, DriveByte;
    var disk' := HostCopy(disk, name, file);
    FirstCopy(disk, name, file);
    assert InBlock(KERNEL_OFFSET + off) == InBlock(off);
    ReadSegBytes(disk', mem, pa, count, KERNEL_OFFSET + off);
    var mem' := ReadSeg(disk', mem, pa, count, KERNEL_OFFSET + off);
    forall a | pa <= a < pa + count
      ensures mem'[a] == file[off + (a - pa)]
    {
      var k := off + (a - pa);
      assert BLOCK + (KERNEL_OFFSET + off) + (a - pa) == 769 * 512 + k;
      FirstDriveByte(disk', file, k);
    }
  }
}
