/** The host tool copy2myfs: the copied file has exactly the bytes it was given, in blocks that
    were free, and the other files keep theirs. */
module FileHost {
  import opened DiskFormat
  import opened FileSpec
  import opened FileBytes
  import opened DiskSteps
  import opened FileInvariant
  import opened FileWrite
  import opened FileEntry

  /** The number of blocks of n bytes. */
  function Blocks(n: int): int { (n + 511) / 512 }

  /** Data blocks in use keep their sectors. */
  ghost predicate KeepsUsed(bits: seq<Sector>, disk: seq<Sector>, disk': seq<Sector>) {
    |disk'| == |disk| && (forall i :: 0 <= i < 769 ==> Sec(disk', i) == Sec(disk, i))
    && forall b :: 0 <= b < SAFE_BLOCKS && BlockUsed(bits, b) ==> Sec(disk', 769 + b) == Sec(disk, 769 + b)
  }

  lemma SaveSec(disk: seq<Sector>, i: int, s: Sector, k: int)
    requires 0 <= i < |disk|
    ensures |Save(disk, i, s)| == |disk| && Sec(Save(disk, i, s), k) == if k == i then s else Sec(disk, k)
  {
  }

  lemma SaveBitsSec(disk: seq<Sector>, bits: seq<Sector>, k: int)
    requires |disk| >= BITS == |bits|
    ensures |SaveBits(disk, bits)| == |disk| && Sec(SaveBits(disk, bits), k) == if 1 <= k < BITS then bits[k] else Sec(disk, k)
  {
  }

  lemma {:induction false} HostLoopEffect(disk: seq<Sector>, bits: seq<Sector>, inode: Sector, file: seq<Byte>, off: nat)
    requires |bits| > 1 && Sized(disk) && InBlock(off) == 0 && off <= 512 * Blocks(|file|) && |file| <= NR_BLOCKS * BLOCK
    requires Blocks(|file|) - BlockNo(off) <= Room(bits)
    decreases |file| - off
    ensures var (disk', bits', inode') := HostLoop(disk, bits, inode, file, off);
            KeepsUsed(bits, disk, disk') && |bits'| == |bits| && MoreUsed(bits, bits')
            && Room(bits') == Room(bits) - (Blocks(|file|) - BlockNo(off))
            && (forall j :: 0 <= j < NR_BLOCKS && !(BlockNo(off) <= j < Blocks(|file|)) ==> WordAt(inode', j) == WordAt(inode, j))
            && (forall j :: BlockNo(off) <= j < Blocks(|file|) ==> FreshBlock(bits, bits', WordAt(inode', j)))
            && (forall j, k :: BlockNo(off) <= j < k < Blocks(|file|) ==> WordAt(inode', j) != WordAt(inode', k))
            && (forall k :: off <= k < |file| ==> ByteAt(disk', inode', k) == file[k])
  {
    hide Used, Room, WordAt, SetWord, DataAlloc, Chunk, Sec, ByteAt;
    if off < |file| {
      DataAllocEffect(bits, HOST_STRIDE);
      var (bits1, b) := DataAlloc(bits, HOST_STRIDE);
      var disk1 := Save(disk, LocData(b), Chunk(file, off));
      var inode1 := SetWord(inode, BlockNo(off), Wrap(b));
      assert Wrap(b) == b && LocData(b) == 769 + b;
      SaveSec(disk, 769 + b, Chunk(file, off), 769 + b);
      assert BlockNo(off + BLOCK) == BlockNo(off) + 1;
      HostLoopEffect(disk1, bits1, inode1, file, off + BLOCK);
      var (disk', bits', inode') := HostLoop(disk1, bits1, inode1, file, off + BLOCK);
      forall j | 0 <= j < NR_BLOCKS
        ensures WordAt(inode1, j) == if j == BlockNo(off) then b else WordAt(inode, j)
      {
        SetWordAt(inode, BlockNo(off), b, j);
      }
      HostStepKeeps(bits, bits1, disk, disk1, disk', b, Chunk(file, off));
      HostStepFresh(bits, bits1, bits', b);
      HostStepBytes(disk1, disk', bits1, inode', file, off, b);
    } else {
      assert Blocks(|file|) == BlockNo(off);
    }
  }

  lemma HostStepKeeps(bits: seq<Sector>, bits1: seq<Sector>, disk: seq<Sector>, disk1: seq<Sector>, disk': seq<Sector>, b: nat, s: Sector)
    requires Sized(disk) && b < SAFE_BLOCKS && !BlockUsed(bits, b) && disk1 == Save(disk, 769 + b, s) && KeepsUsed(bits1, disk1, disk')
    requires forall q :: 0 <= q < FIRST_SLICE ==> Used(bits1, q) == (q == 769 + b || Used(bits, q))
    ensures KeepsUsed(bits, disk, disk')
  {
    hide Bit;
    forall c | 0 <= c < SAFE_BLOCKS && BlockUsed(bits, c)
      ensures Sec(disk', 769 + c) == Sec(disk, 769 + c)
    {
      assert BlockUsed(bits1, c);
    }
    forall i | 0 <= i < 769
      ensures Sec(disk', i) == Sec(disk, i)
    {
      assert Sec(disk', i) == Sec(disk1, i);
    }
  }

  lemma HostStepFresh(bits: seq<Sector>, bits1: seq<Sector>, bits': seq<Sector>, b: nat)
    requires b < SAFE_BLOCKS && !BlockUsed(bits, b) && MoreUsed(bits1, bits')
    requires forall q :: 0 <= q < FIRST_SLICE ==> Used(bits1, q) == (q == 769 + b || Used(bits, q))
    ensures FreshBlock(bits, bits', b) && !FreshBlock(bits1, bits', b)
    ensures forall c: U32 :: FreshBlock(bits1, bits', c) ==> FreshBlock(bits, bits', c)
    ensures MoreUsed(bits, bits')
  {
    hide Bit;
    assert Used(bits1, 769 + b);
  }

  lemma HostStepBytes(disk1: seq<Sector>, disk': seq<Sector>, bits1: seq<Sector>, inode': Sector, file: seq<Byte>, off: nat, b: nat)
    requires InBlock(off) == 0 && off < |file| && b < SAFE_BLOCKS && BlockUsed(bits1, b)
    requires Sec(disk1, 769 + b) == Chunk(file, off) && KeepsUsed(bits1, disk1, disk')
    requires WordAt(inode', BlockNo(off)) == b
    requires forall k :: off + BLOCK <= k < |file| ==> ByteAt(disk', inode', k) == file[k]
    ensures forall k :: off <= k < |file| ==> ByteAt(disk', inode', k) == file[k]
  {
    hide WordAt, Sec, Used;
    forall k | off <= k < |file|
      ensures ByteAt(disk', inode', k) == file[k]
    {
      if k < off + BLOCK {
        assert BlockNo(k) == BlockNo(off) && InBlock(k) == k - off;
        assert Sec(disk', 769 + b) == Chunk(file, off);
      }
    }
  }

  // ---- the whole copy

  /** What the sectors are when the tool has finished. */
  lemma HostSectors(disk: seq<Sector>, x: int, name: seq<Byte>, file: seq<Byte>)
    requires Sized(disk) && 0 <= x < ENTRIES && 0 <= INodeAlloc(BitsOf(disk), HOST_STRIDE).1 < SC_INODE
    requires var (bits1, ino) := INodeAlloc(BitsOf(disk), HOST_STRIDE);
             var (disk2, bits2, inode2) := HostLoop(disk, bits1, FullSector(), file, 0);
             |disk2| == |disk| && |bits2| == BITS && forall i :: 0 <= i < 769 ==> Sec(disk2, i) == Sec(disk, i)
    ensures var (bits1, ino) := INodeAlloc(BitsOf(disk), HOST_STRIDE);
            var (disk2, bits2, inode2) := HostLoop(disk, bits1, FullSector(), file, 0);
            var disk' := HostCopyTo(disk, x, name, file);
            |disk'| == |disk| && Sec(disk', 1) == Sec(bits2, 1) && Sec(disk', LocINode(ino)) == inode2
            && Stored(disk, disk', x, name, Wrap(|file|), Wrap(ino))
            && (forall i :: 513 <= i && i != LocINode(ino) ==> Sec(disk', i) == Sec(disk2, i))
  {
    hide EntrySector, INodeAlloc, HostLoop, FullSector, Save, Sec, SaveBits;
    var (bits1, ino) := INodeAlloc(BitsOf(disk), HOST_STRIDE);
    var (disk2, bits2, inode2) := HostLoop(disk, bits1, FullSector(), file, 0);
    var disk3 := Save(disk2, LocINode(ino), inode2);
    var disk4 := SaveBits(disk3, bits2);
    var d := LocDir(DirNo(x));
    var s := EntrySector(DirSec(disk, x), DirPos(x), name, Wrap(|file|), Wrap(ino));
    assert LocDir(0) <= d < LocDir(SC_DIR);
    SaveSec(disk2, LocINode(ino), inode2, 0);
    SaveBitsSec(disk3, bits2, 0);
    assert HostCopyTo(disk, x, name, file) == Save(disk4, d, s);
    forall i
      ensures Sec(Save(disk4, d, s), i) ==
              if i == d then s else if 1 <= i < BITS then bits2[i] else if i == LocINode(ino) then inode2 else Sec(disk2, i)
    {
      SaveSec(disk4, d, s, i);
      SaveBitsSec(disk3, bits2, i);
      SaveSec(disk2, LocINode(ino), inode2, i);
    }
    SaveSec(disk4, d, s, 0);
    assert Sec(bits2, 1) == bits2[1] by { SecIn(bits2, 1); }
    var mid := PutEntry(disk, x, name, Wrap(|file|), Wrap(ino));
    SaveSec(disk, d, s, 0);
    forall i | LocDir(0) <= i < LocDir(SC_DIR)
      ensures Sec(Save(disk4, d, s), i) == Sec(mid, i)
    {
      SaveSec(disk, d, s, i);
    }
  }

  lemma SecIn(disk: seq<Sector>, i: int)
    requires 0 <= i < |disk|
    ensures Sec(disk, i) == disk[i]
  {
  }

  lemma BitsSame(disk: seq<Sector>)
    requires Sized(disk)
    ensures |BitsOf(disk)| == BITS && Room(BitsOf(disk)) == Room(disk)
    ensures forall q :: 0 <= q < FIRST_SLICE ==> Used(BitsOf(disk), q) == Used(disk, q)
  {
    hide HasBit, Free, Bit;
    var bits := BitsOf(disk);
    assert Sec(bits, 1) == Sec(disk, 1);
    FreeSame(disk, bits, SAFE_BLOCKS);
    forall q | 0 <= q < FIRST_SLICE ensures Used(bits, q) == Used(disk, q) { UsedSlice(disk, bits, q); }
  }

  /** The guard of a host copy: a place in the directory, an inode, and enough blocks. */
  ghost predicate Copyable(disk: seq<Sector>, name: seq<Byte>, file: seq<Byte>) {
    |name| < LEN_FILENAME && HostFind(disk, name, 0) < ENTRIES && INodeFree(disk)
    && |file| <= NR_BLOCKS * BLOCK && Blocks(|file|) <= Room(disk)
  }

  /** The copy makes the entry with a free inode and fresh blocks that hold the file's bytes. */
  lemma CopyMakes(disk: seq<Sector>, name: seq<Byte>, file: seq<Byte>)
    requires DiskInv(disk) && Copyable(disk, name, file)
    ensures var x := HostFind(disk, name, 0);
            var ino := INodeAlloc(BitsOf(disk), HOST_STRIDE).1;
            var disk' := HostCopy(disk, name, file);
            0 <= ino < SC_INODE && Made(disk, disk', x, name, |file|, ino, Sec(disk', LocINode(ino)))
            && Room(disk') == Room(disk) - Blocks(|file|)
            && (forall k :: 0 <= k < |file| ==> ByteAt(disk', Sec(disk', LocINode(ino)), k) == file[k])
            && (forall b :: 0 <= b < SAFE_BLOCKS && BlockUsed(disk, b) ==> Sec(disk', 769 + b) == Sec(disk, 769 + b))
  {
    hide Used, Free, INodeAlloc, HostLoop, HostCopyTo, WordAt, Sec, DiskInv, FullSector, ByteAt, Stored, FreshINode, MoreUsed;
    var x := HostFind(disk, name, 0);
    InvSized(disk);
    BitsSame(disk);
    var bits := BitsOf(disk);
    FindRange(disk, name, 0);
    assert INodeFree(bits) by { INodeFreeSame(disk, bits); }
    INodeAllocEffect(bits, HOST_STRIDE);
    var (bits1, ino) := INodeAlloc(bits, HOST_STRIDE);
    HostLoopEffect(disk, bits1, FullSector(), file, 0);
    var (disk2, bits2, t) := HostLoop(disk, bits1, FullSector(), file, 0);
    HostSectors(disk, x, name, file);
    var disk' := HostCopy(disk, name, file);
    CopyBits(disk, bits1, bits2, disk', ino);
    CopyFresh(disk, bits1, bits2, disk', t, |file|);
    CopyBytes(disk2, disk', t, file, ino) by {
      forall j | 0 <= j < Blocks(|file|) ensures WordAt(t, j) < SAFE_BLOCKS { assert FreshBlock(bits1, bits2, WordAt(t, j)); }
    }
    forall b | 0 <= b < SAFE_BLOCKS && BlockUsed(disk, b)
      ensures Sec(disk', 769 + b) == Sec(disk, 769 + b)
    {
      assert Used(bits1, 769 + b);
      assert BlockUsed(bits1, b);
    }
  }

  lemma {:induction false} FindRange(disk: seq<Sector>, name: seq<Byte>, x: nat)
    requires x <= ENTRIES
    decreases ENTRIES - x
    ensures x <= HostFind(disk, name, x) <= ENTRIES
    ensures var y := HostFind(disk, name, x);
            y < ENTRIES ==> SameName(disk, y, name) || Ino(disk, y) == NO_BLOCK
  {
    hide SameName, Ino;
    if x < ENTRIES && !(SameName(disk, x, name) || Ino(disk, x) == NO_BLOCK) {
      FindRange(disk, name, x + 1);
    }
  }

  lemma INodeFreeSame(disk: seq<Sector>, bits: seq<Sector>)
    requires INodeFree(disk) && forall q :: 0 <= q < FIRST_SLICE ==> Used(bits, q) == Used(disk, q)
    ensures INodeFree(bits)
  {
    hide Bit;
    var k :| 0 <= k < SC_INODE && !INodeUsed(disk, k);
    assert !INodeUsed(bits, k);
  }

  lemma CopyBits(disk: seq<Sector>, bits1: seq<Sector>, bits2: seq<Sector>, disk': seq<Sector>, ino: nat)
    requires ino < SC_INODE && MoreUsed(bits1, bits2) && Sec(disk', 1) == Sec(bits2, 1)
    requires forall q :: 0 <= q < FIRST_SLICE ==> Used(bits1, q) == (q == 513 + ino || Used(disk, q))
    ensures MoreUsed(disk, disk') && INodeUsed(disk', ino) && Room(disk') == Room(bits2)
    ensures forall q :: 0 <= q < FIRST_SLICE ==> Used(disk', q) == Used(bits2, q)
  {
    hide Bit, Free;
    forall q | 0 <= q < FIRST_SLICE ensures Used(disk', q) == Used(bits2, q) { UsedSlice(bits2, disk', q); }
    FreeSame(bits2, disk', SAFE_BLOCKS);
    assert Used(bits1, 513 + ino);
  }

  lemma CopyFresh(disk: seq<Sector>, bits1: seq<Sector>, bits2: seq<Sector>, disk': seq<Sector>, t: Sector, n: nat)
    requires n <= NR_BLOCKS * BLOCK
    requires forall q :: 0 <= q < FIRST_SLICE ==> Used(disk', q) == Used(bits2, q)
    requires forall q :: 0 <= q < FIRST_SLICE && Used(disk, q) ==> Used(bits1, q)
    requires forall j :: 0 <= j < NR_BLOCKS && !(0 <= j < Blocks(n)) ==> WordAt(t, j) == WordAt(FullSector(), j)
    requires forall j :: 0 <= j < Blocks(n) ==> FreshBlock(bits1, bits2, WordAt(t, j))
    requires forall j, k :: 0 <= j < k < Blocks(n) ==> WordAt(t, j) != WordAt(t, k)
    ensures FreshINode(disk, disk', t, n)
  {
    hide Bit, WordAt;
    forall j | 0 <= j < NR_BLOCKS ensures WordAt(FullSector(), j) == NO_BLOCK { FullWord(j); }
    forall j | 0 <= j < NR_BLOCKS
      ensures WordAt(t, j) == NO_BLOCK || FreshBlock(disk, disk', WordAt(t, j))
      ensures j < Blocks(n) ==> WordAt(t, j) != NO_BLOCK
    {
      assert j < Blocks(n) ==> FreshBlock(bits1, bits2, WordAt(t, j));
    }
  }

  lemma CopyBytes(disk2: seq<Sector>, disk': seq<Sector>, t: Sector, file: seq<Byte>, ino: nat)
    requires ino < SC_INODE && forall i :: 513 <= i && i != LocINode(ino) ==> Sec(disk', i) == Sec(disk2, i)
    requires forall j :: 0 <= j < Blocks(|file|) ==> WordAt(t, j) < SAFE_BLOCKS
    requires forall k :: 0 <= k < |file| ==> ByteAt(disk2, t, k) == file[k]
    ensures forall k :: 0 <= k < |file| ==> ByteAt(disk', t, k) == file[k]
  {
    hide Sec, WordAt;
    forall k | 0 <= k < |file|
      ensures ByteAt(disk', t, k) == file[k]
    {
      assert ByteAt(disk2, t, k) == file[k];
      assert WordAt(t, BlockNo(k)) < SAFE_BLOCKS;
    }
  }

  /** The copy: the invariant holds after it, the new file has exactly the given bytes, under
      the given name, and every other file keeps its bytes. */
  lemma CopyIn(disk: seq<Sector>, name: seq<Byte>, file: seq<Byte>)
    requires DiskInv(disk) && Copyable(disk, name, file)
    ensures var x := HostFind(disk, name, 0);
            var disk' := HostCopy(disk, name, file);
            DiskInv(disk') && Live(disk', x) && SameName(disk', x, name) && File(disk', x) == file
            && Room(disk') == Room(disk) - Blocks(|file|)
    ensures forall y :: Live(disk, y) && y != HostFind(disk, name, 0) ==>
              Live(HostCopy(disk, name, file), y) && File(HostCopy(disk, name, file), y) == File(disk, y)
  {
    hide DiskInv, HostCopy, Sec, Made, Ino, Size, Name, SameName, INodeOf, Live, FreshINode, MoreUsed, Content, Used, INodeAlloc, Room, BitsOf, Blocks;
    var x := HostFind(disk, name, 0);
    var disk' := HostCopy(disk, name, file);
    CopyMakes(disk, name, file);
    var ino := INodeAlloc(BitsOf(disk), HOST_STRIDE).1;
    var t := Sec(disk', LocINode(ino));
    MadeEntered(disk, disk', x, name, |file|, ino, t);
    EnteredKeeps(disk, disk', x, |file|, ino, t);
    ContentLen(disk', t, |file|);
    assert Content(disk', t, |file|) == file;
    forall y | Live(disk, y) && y != x
      ensures Live(disk', y) && File(disk', y) == File(disk, y)
    {
      LiveRange(disk, y);
      EnteredFile(disk, disk', x, |file|, ino, t, y);
    }
  }
}
