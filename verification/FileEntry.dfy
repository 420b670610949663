/** A directory entry gets a new inode, by fs_create_kr or by the host tool: the invariant and
    all other files survive. */
module FileEntry {
  import opened DiskFormat
  import opened FileSpec
  import opened FileBytes
  import opened DiskSteps
  import opened FileInvariant
  import opened FileWrite

  /** The directory holds what was stored in entry x, and nothing else is different in it. */
  predicate Stored(disk: seq<Sector>, disk': seq<Sector>, x: int, name: seq<Byte>, size: U32, ino: U32) {
    SameDirs(PutEntry(disk, x, name, size, ino), disk')
  }

  /** An inode sector whose slots are empty or hold fresh blocks, each one once, and enough of
      them for the size. */
  ghost predicate FreshINode(disk: seq<Sector>, disk': seq<Sector>, t: Sector, size: U32) {
    && (forall j :: 0 <= j < NR_BLOCKS ==> WordAt(t, j) == NO_BLOCK || FreshBlock(disk, disk', WordAt(t, j)))
    && (forall j, k :: 0 <= j < k < NR_BLOCKS && WordAt(t, j) != NO_BLOCK ==> WordAt(t, j) != WordAt(t, k))
    && size <= NR_BLOCKS * BLOCK
    && (forall j :: 0 <= j && 512 * j < size ==> WordAt(t, j) != NO_BLOCK)
  }

  /** The sectors after an entry was made: inode `ino` was free and now is t. */
  ghost predicate Made(disk: seq<Sector>, disk': seq<Sector>, x: int, name: seq<Byte>, size: U32, ino: U32, t: Sector) {
    && |disk'| == |disk| && 0 <= x < ENTRIES && |name| < LEN_FILENAME
    && ino < SC_INODE && !INodeUsed(disk, ino) && INodeUsed(disk', ino)
    && Stored(disk, disk', x, name, size, ino) && MoreUsed(disk, disk')
    && Sec(disk', LocINode(ino)) == t
    && (forall i :: LocINode(0) <= i < LocINode(SC_INODE) && i != LocINode(ino) ==> Sec(disk', i) == Sec(disk, i))
    && FreshINode(disk, disk', t, size)
  }

  /** The same, entry by entry. */
  ghost predicate Entered(disk: seq<Sector>, disk': seq<Sector>, x: int, size: U32, ino: U32, t: Sector) {
    && |disk'| == |disk| && 0 <= x < ENTRIES
    && ino < SC_INODE && !INodeUsed(disk, ino) && INodeUsed(disk', ino) && MoreUsed(disk, disk')
    && Live(disk', x) && Ino(disk', x) == ino && Size(disk', x) == size && INodeOf(disk', x) == t
    && (forall y :: 0 <= y < ENTRIES && y != x ==>
         Live(disk', y) == Live(disk, y) && Ino(disk', y) == Ino(disk, y) && Size(disk', y) == Size(disk, y) && Name(disk', y) == Name(disk, y))
    && (forall y :: Live(disk, y) && y != x ==> INodeOf(disk', y) == INodeOf(disk, y))
    && FreshINode(disk, disk', t, size)
  }

  lemma MadeEntered(disk: seq<Sector>, disk': seq<Sector>, x: int, name: seq<Byte>, size: U32, ino: U32, t: Sector)
    requires DiskInv(disk) && Made(disk, disk', x, name, size, ino, t)
    ensures Entered(disk, disk', x, size, ino, t) && SameName(disk', x, name)
  {
    hide DiskInv, FreshINode, Name, PutEntry, Sec, Used, MoreUsed, Size, Ino, SameDirs;
    var mid := PutEntry(disk, x, name, size, ino);
    assert Sized(disk) by { InvSized(disk); }
    forall y | 0 <= y < ENTRIES
      ensures Ino(disk', y) == Ino(mid, y) && Size(disk', y) == Size(mid, y) && Name(disk', y) == Name(mid, y)
    {
      SameEntry(mid, disk', y);
    }
    forall y | 0 <= y < ENTRIES
      ensures Ino(mid, y) == (if y == x then ino else Ino(disk, y))
      ensures Size(mid, y) == (if y == x then size else Size(disk, y))
      ensures y != x ==> Name(mid, y) == Name(disk, y)
    {
      PutEntryEffect(disk, x, name, size, ino, y);
    }
    PutEntryEffect(disk, x, name, size, ino, x);
    forall y | Live(disk, y) && y != x
      ensures INodeOf(disk', y) == INodeOf(disk, y)
    {
      MarkedINode(disk, y);
    }
  }

  lemma InvSized(disk: seq<Sector>)
    requires DiskInv(disk)
    ensures Sized(disk)
  {
  }

  // ---- the invariant

  lemma EnteredSlots(disk: seq<Sector>, disk': seq<Sector>, x: int, size: U32, ino: U32, t: Sector, y: int, j: int)
    requires Entered(disk, disk', x, size, ino, t) && Held(disk', y, j)
    ensures y == x ==> FreshBlock(disk, disk', Block(disk', y, j)) && Block(disk', y, j) == WordAt(t, j)
    ensures y != x ==> Held(disk, y, j) && Block(disk', y, j) == Block(disk, y, j)
  {
    hide Name, Used, MoreUsed, Size, Ino, WordAt, INodeOf;
  }

  lemma EnteredINodes(disk: seq<Sector>, disk': seq<Sector>, x: int, size: U32, ino: U32, t: Sector)
    requires DiskInv(disk) && Entered(disk, disk', x, size, ino, t)
    ensures INodesMarked(disk') && INodesApart(disk') && DeadNamesEmpty(disk')
  {
    hide Used, Size, Ino, FreshINode, INodeOf, BlocksMarked, BlocksApart, SizesCovered, Live, DirSec;
    assert forall y :: Live(disk', y) ==> 0 <= y < ENTRIES by { forall y | Live(disk', y) ensures 0 <= y < ENTRIES { LiveRange(disk', y); } }
    forall y | 0 <= y < ENTRIES && !Live(disk', y)
      ensures Name(disk', y)[0] == 0
    {
      assert !Live(disk, y);
    }
  }

  lemma LiveRange(disk: seq<Sector>, x: int)
    requires Live(disk, x)
    ensures 0 <= x < ENTRIES
  {
  }

  lemma EnteredBlocks(disk: seq<Sector>, disk': seq<Sector>, x: int, size: U32, ino: U32, t: Sector)
    requires DiskInv(disk) && Entered(disk, disk', x, size, ino, t)
    ensures BlocksMarked(disk')
  {
    hide Name, Size, Ino, FreshINode, INodeOf, BlocksApart, SizesCovered, Live, Held, Block, Bit, INodesMarked, INodesApart, DeadNamesEmpty;
    forall y, j | Held(disk', y, j)
      ensures Block(disk', y, j) < SAFE_BLOCKS && BlockUsed(disk', Block(disk', y, j))
    {
      EnteredSlots(disk, disk', x, size, ino, t, y, j);
    }
  }

  lemma EnteredApart(disk: seq<Sector>, disk': seq<Sector>, x: int, size: U32, ino: U32, t: Sector)
    requires DiskInv(disk) && Entered(disk, disk', x, size, ino, t)
    ensures BlocksApart(disk')
  {
    hide DiskInv, Entered, Block, Held;
    forall y, j, z, k | Held(disk', y, j) && Held(disk', z, k) && (y != z || j != k)
      ensures Block(disk', y, j) != Block(disk', z, k)
    {
      EnteredPair(disk, disk', x, size, ino, t, y, j, z, k);
    }
  }

  lemma EnteredPair(disk: seq<Sector>, disk': seq<Sector>, x: int, size: U32, ino: U32, t: Sector, y: int, j: int, z: int, k: int)
    requires DiskInv(disk) && Entered(disk, disk', x, size, ino, t)
    requires Held(disk', y, j) && Held(disk', z, k) && (y != z || j != k)
    ensures Block(disk', y, j) != Block(disk', z, k)
  {
    hide Name, Size, Ino, INodeOf, SizesCovered, Live, Block, Bit, INodesMarked, INodesApart, DeadNamesEmpty, WordAt;
    EnteredSlots(disk, disk', x, size, ino, t, y, j);
    EnteredSlots(disk, disk', x, size, ino, t, z, k);
    assert FreshINode(disk, disk', t, size);
  }

  lemma EnteredKeeps(disk: seq<Sector>, disk': seq<Sector>, x: int, size: U32, ino: U32, t: Sector)
    requires DiskInv(disk) && Entered(disk, disk', x, size, ino, t)
    ensures DiskInv(disk')
  {
    hide INodesMarked, INodesApart, BlocksMarked, BlocksApart, DeadNamesEmpty, Live, Covers, Ino, Size, Name, INodeOf, Used, FreshINode, MoreUsed;
    EnteredINodes(disk, disk', x, size, ino, t);
    EnteredBlocks(disk, disk', x, size, ino, t);
    EnteredApart(disk, disk', x, size, ino, t);
    forall y | Live(disk', y)
      ensures Covers(disk', y, Size(disk', y))
    {
      LiveRange(disk', y);
      if y == x {
        EnteredCovers(disk, disk', x, size, ino, t);
      } else {
        EnteredOther(disk, disk', x, size, ino, t, y, Size(disk, y));
      }
    }
  }

  lemma EnteredCovers(disk: seq<Sector>, disk': seq<Sector>, x: int, size: U32, ino: U32, t: Sector)
    requires Entered(disk, disk', x, size, ino, t)
    ensures Covers(disk', x, size)
  {
    hide Ino, Size, Name, Used, MoreUsed, WordAt, INodeOf, Live;
  }

  lemma EnteredOther(disk: seq<Sector>, disk': seq<Sector>, x: int, size: U32, ino: U32, t: Sector, y: int, n: int)
    requires Entered(disk, disk', x, size, ino, t) && Live(disk, y) && y != x && Covers(disk, y, n)
    ensures Covers(disk', y, n)
  {
    hide Ino, Size, Name, Used, MoreUsed, WordAt, INodeOf, FreshINode;
    forall j | 0 <= j && 512 * j < n
      ensures Held(disk', y, j)
    {
      assert Held(disk, y, j);
    }
  }

  lemma EnteredStream(disk: seq<Sector>, disk': seq<Sector>, x: int, size: U32, ino: U32, t: Sector, f: Stream)
    requires Entered(disk, disk', x, size, ino, t) && StreamOk(disk, f) && f.entry != x
    ensures StreamOk(disk', f)
  {
    hide Ino, Size, Name, Used, MoreUsed, INodeOf, FreshINode, Covers;
    if f.used {
      EnteredOther(disk, disk', x, size, ino, t, f.entry, f.size);
    }
  }

  /** Other files keep their bytes, as far as the data area under them is unchanged. */
  lemma EnteredFile(disk: seq<Sector>, disk': seq<Sector>, x: int, size: U32, ino: U32, t: Sector, y: int)
    requires DiskInv(disk) && Entered(disk, disk', x, size, ino, t) && Live(disk, y) && y != x
    requires forall b :: 0 <= b < SAFE_BLOCKS && BlockUsed(disk, b) ==> Sec(disk', 769 + b) == Sec(disk, 769 + b)
    ensures File(disk', y) == File(disk, y)
  {
    hide DiskInv, Ino, Size, Name, Used, MoreUsed, FreshINode, INodeOf, Live, Block, Held, Covers, SlotSec, Content, Sec;
    LiveRange(disk, y);
    SizeCovered(disk, y);
    forall j | 0 <= j && 512 * j < Size(disk, y)
      ensures Sec(disk', SlotSec(INodeOf(disk, y), j)) == Sec(disk, SlotSec(INodeOf(disk, y), j))
    {
      CoversHeld(disk, y, Size(disk, y), j);
      HeldSec(disk, y, j);
      HeldUsed(disk, y, j);
    }
    SameBytes(disk, disk', INodeOf(disk, y), Size(disk, y));
  }

  lemma HeldUsed(disk: seq<Sector>, x: int, j: int)
    requires DiskInv(disk) && Held(disk, x, j)
    ensures Block(disk, x, j) < SAFE_BLOCKS && BlockUsed(disk, Block(disk, x, j))
  {
    hide Used, Block, Live;
  }

  // ---- fs_create_kr

  ghost predicate INodeFree(disk: seq<Sector>) { exists k :: 0 <= k < SC_INODE && !INodeUsed(disk, k) }

  /** A new file is empty; nothing else in the directory, no other file and no data change. */
  lemma CreateMakes(disk: seq<Sector>, x: int, name: seq<Byte>)
    requires DiskInv(disk) && 0 <= x < ENTRIES && |name| < LEN_FILENAME && INodeFree(disk)
    ensures var disk' := CreateOnDisk(disk, x, name);
            var ino := INodeAlloc(disk, KERNEL_STRIDE).1;
            0 <= ino < SC_INODE && Made(disk, disk', x, name, 0, ino, FullSector()) && Room(disk') == Room(disk)
            && forall i :: 769 <= i ==> Sec(disk', i) == Sec(disk, i)
  {
    hide Bit, INodeAlloc, Free, EntrySector, WordAt, DiskInv, Stored, FreshINode, FullSector;
    InvSized(disk);
    INodeAllocEffect(disk, KERNEL_STRIDE);
    var (disk1, ino) := INodeAlloc(disk, KERNEL_STRIDE);
    var disk2 := PutEntry(disk1, x, name, 0, Wrap(ino));
    var disk' := Save(disk2, LocINode(ino), FullSector());
    assert LocDir(0) <= LocDir(DirNo(x)) < LocDir(SC_DIR);
    assert Sec(disk', 1) == Sec(disk1, 1);
    FreeSame(disk1, disk', SAFE_BLOCKS);
    forall q | 0 <= q < FIRST_SLICE
      ensures Used(disk', q) == Used(disk1, q)
    {
      UsedSlice(disk1, disk', q);
    }
    FreshFull(disk, disk');
    StoredBy(disk, disk1, disk', x, name, 0, ino);
  }

  lemma FreshFull(disk: seq<Sector>, disk': seq<Sector>)
    ensures FreshINode(disk, disk', FullSector(), 0)
  {
    hide WordAt;
    forall j | 0 <= j < NR_BLOCKS ensures WordAt(FullSector(), j) == NO_BLOCK { FullWord(j); }
  }

  lemma StoredBy(disk: seq<Sector>, disk1: seq<Sector>, disk': seq<Sector>, x: int, name: seq<Byte>, size: U32, ino: U32)
    requires SameDirs(disk, disk1) && SameDirs(PutEntry(disk1, x, name, size, ino), disk') && 0 <= x < ENTRIES
    ensures Stored(disk, disk', x, name, size, ino)
  {
    hide EntrySector;
    assert LocDir(0) <= LocDir(DirNo(x)) < LocDir(SC_DIR);
    assert DirSec(disk1, x) == DirSec(disk, x);
    var mid, mid1 := PutEntry(disk, x, name, size, ino), PutEntry(disk1, x, name, size, ino);
    forall i | LocDir(0) <= i < LocDir(SC_DIR)
      ensures Sec(disk', i) == Sec(mid, i)
    {
      assert Sec(disk', i) == Sec(mid1, i);
      assert Sec(disk1, i) == Sec(disk, i);
    }
  }

  /** With no inode left fs_create_kr goes on with number -1, whose sector is the last one of
      the directory: every entry in it is overwritten. */
  lemma CreateOverruns(disk: seq<Sector>, x: int, name: seq<Byte>)
    requires Sized(disk) && 0 <= x < ENTRIES && !INodeFree(disk)
    ensures Sec(CreateOnDisk(disk, x, name), LocDir(SC_DIR - 1)) == FullSector()
  {
    hide Bit, EntrySector, FullSector;
    FirstClearFinds(disk, KERNEL_STRIDE, 513, SC_INODE, 0);
    forall j | 0 <= j < SC_INODE ensures Taken(disk, KERNEL_STRIDE, 513, j) { assert INodeUsed(disk, j); }
    assert INodeAlloc(disk, KERNEL_STRIDE).1 == -1;
  }

  /** fs_create_kr keeps the invariant of the disk if and only if an inode is free. */
  lemma CreateKeepsIff(disk: seq<Sector>, x: int, name: seq<Byte>)
    requires DiskInv(disk) && 0 <= x < ENTRIES && |name| < LEN_FILENAME
    ensures DiskInv(CreateOnDisk(disk, x, name)) <==> INodeFree(disk)
  {
    hide DiskInv, CreateOnDisk, INodeFree, Made, Room, FullSector, INodeAlloc, Entered;
    var disk' := CreateOnDisk(disk, x, name);
    if INodeFree(disk) {
      var ino := INodeAlloc(disk, KERNEL_STRIDE).1;
      CreateMakes(disk, x, name);
      MadeEntered(disk, disk', x, name, 0, ino, FullSector());
      EnteredKeeps(disk, disk', x, 0, ino, FullSector());
    } else {
      InvSized(disk);
      CreateOverruns(disk, x, name);
      FullEntry(disk');
    }
  }

  /** A directory sector of ones: its entries name no file, and have a name all the same. */
  lemma FullEntry(disk: seq<Sector>)
    requires Sec(disk, LocDir(SC_DIR - 1)) == FullSector()
    ensures !DiskInv(disk)
  {
    hide WordAt, FullSector, INodesMarked, INodesApart, BlocksMarked, BlocksApart, SizesCovered;
    var x := ENTRIES - 1;
    assert DirNo(x) == SC_DIR - 1 && DirPos(x) == 15;
    FullWord(INodeWord(15));
    assert Ino(disk, x) == NO_BLOCK;
    assert Name(disk, x)[0] == FullSector()[480];
    FullByte(480);
  }

  lemma FullByte(k: int)
    requires 0 <= k < BLOCK
    ensures FullSector()[k] == 255
  {
  }
}
